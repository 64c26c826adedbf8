/** protocol.c: iotbroker_read_packet, which reads one control packet from a
    client's stream, hands it to handle_packet and writes the reply, and
    iotbroker_write_packet, which drains a client's queue of outgoing PUBLISH
    packets. The socket is an in-memory byte sequence here: what read() would
    return next, or the bytes write() is given. */
module Protocol {
  import opened CTypes
  import opened Codec
  import opened MessageStore
  import opened Session
  import opened SubTree
  import opened PacketHandle

  // the return codes of protocol.h
  const ERROR_SOCK_READ_WRITE := 0x01
  const ERROR_SOCK_CLIENT_CLOSE := 0x02
  const ERROR_SOCK_PACKET_ERROR := 0x03
  const ERROR_SOCK_CLIENT_NOEXIST := 0x04

  // ------------------------------------------------------ reading a packet

  /** What one pass of iotbroker_read_packet takes from the stream: the
      packet (type, flags, payload, `current_pos` = the header length) and
      the number of bytes consumed, or the error code it returns. */
  datatype ReadResult =
    | Decoded(ptype: int, flags: uint8, payload: seq<uint8>, headerLen: nat, consumed: nat)
    | ReadFailed(code: int)

  function Zeros(n: nat): (r: seq<uint8>)
    ensures |r| == n && forall k :: 0 <= k < n ==> r[k] == 0
  {
    seq(n, _ => 0)
  }

  /** The header byte, the remaining length (at most MAX_REMAIN_BYTE_LEN
      bytes), then a single read of `remain_len` bytes into a zeroed buffer,
      so a short read leaves zeros at the end. The type is checked only after
      the payload is read. A read that gets nothing reports a closed client
      (read returned 0); a bad length or type a packet error. */
  function DecodePacket(s: seq<uint8>): (r: ReadResult)
    ensures r.Decoded? ==> r.headerLen <= r.consumed <= |s| && |r.payload| <= MAX_REMAIN_LENGTH
  {
    if s == [] then ReadFailed(ERROR_SOCK_CLIENT_CLOSE)
    else
      DecodedLengthFits(s[1..]);
      match DecodeLength(s[1..])
      case LengthClosed => ReadFailed(ERROR_SOCK_CLIENT_CLOSE)
      case LengthTooLong => ReadFailed(ERROR_SOCK_PACKET_ERROR)
      case LengthOk(v, k) =>
        var avail := s[1 + k..];
        var n := if |avail| < v then |avail| else v;
        if v != 0 && n == 0 then ReadFailed(ERROR_SOCK_CLIENT_CLOSE)
        else
          match GetPacketType(s[0])
          case None => ReadFailed(ERROR_SOCK_PACKET_ERROR)
          case Some(t) => Decoded(t, GetPacketFlag(s[0]), avail[..n] + Zeros(v - n), 1 + k, 1 + k + n)
  }

  /** The reads of iotbroker_read_packet, up to the Packet it builds. */
  method ReadPacket(s: seq<uint8>) returns (r: ReadResult)
    ensures r == DecodePacket(s)
  {
    if |s| == 0 {
      return ReadFailed(ERROR_SOCK_CLIENT_CLOSE);
    }
    var len := ReadRemainLength(s[1..]);
    if len.LengthClosed? {
      return ReadFailed(ERROR_SOCK_CLIENT_CLOSE);
    } else if len.LengthTooLong? {
      return ReadFailed(ERROR_SOCK_PACKET_ERROR);
    }
    var v, k := len.value, len.count;
    var avail := s[1 + k..];
    var n := if |avail| < v then |avail| else v;
    if v != 0 && n == 0 {
      return ReadFailed(ERROR_SOCK_CLIENT_CLOSE);
    }
    var t := GetPacketType(s[0]);
    if t.None? {
      return ReadFailed(ERROR_SOCK_PACKET_ERROR);
    }
    r := Decoded(t.value, GetPacketFlag(s[0]), avail[..n] + Zeros(v - n), 1 + k, 1 + k + n);
  }

  /** Every packet write_packet emits for a minimally encoded frame is read
      back whole, whatever follows it on the stream: same type, flags and
      payload, `current_pos` just past the remaining length. */
  lemma FrameReadsBack(f: Frame, rest: seq<uint8>)
    requires CONNECT <= f.ptype <= DISCONNECT && 0 <= f.flags < 16
    requires |f.payload| == f.remainLen <= MAX_REMAIN_LENGTH
    ensures DecodePacket(EncodeFrame(f) + rest) ==
      Decoded(f.ptype, f.flags, f.payload, 1 + |Varint(f.remainLen)|, |EncodeFrame(f)|)
  {
    var s := EncodeFrame(f) + rest;
    var k := |Varint(f.remainLen)|;
    assert s[1..] == Varint(f.remainLen) + (f.payload + rest);
    LengthRoundTrip(f.remainLen, f.payload + rest);
    assert s[1 + k..] == f.payload + rest;
    assert (f.payload + rest)[..f.remainLen] == f.payload;
    HeaderRoundTrip(f.ptype, f.flags);
    assert s[0] == HeaderByte(f.ptype, f.flags);
  }

  // ------------------------------------------------------ serving a packet

  /** A frame write_packet can put into its `5 + remain_len` byte buffer. */
  predicate Writable(f: Frame)
  {
    ValidFrame(f) && f.remainLen <= MAX_REMAIN_LENGTH && |f.payload| <= f.remainLen
  }

  /** The reply a handler leaves, if any, can be written. */
  predicate WritableReply(o: Outcome)
  {
    o.reply.Some? ==> Writable(o.reply.value)
  }

  /** What iotbroker_read_packet leaves behind: the new state, its return
      code and the bytes it writes to the socket. */
  datatype Served = Served(w: World, code: int, sent: seq<uint8>)

  /** iotbroker_read_packet for the client on `fd`: an unknown fd, a failed
      read and a failing handler send nothing; a handler that fails reports a
      closed client (the `ret` it inspects is still the SUCESS of the type
      check); otherwise the reply, if any, is written out. The state the
      handler left stays in every case. */
  function ServeSpec(w: World, byFd: map<int, Ref>, fd: int, s: seq<uint8>): Served
    requires fd in byFd ==> byFd[fd] in w.heap
  {
    if fd !in byFd then Served(w, ERROR_SOCK_CLIENT_NOEXIST, [])
    else
      match DecodePacket(s)
      case ReadFailed(code) => Served(w, code, [])
      case Decoded(t, f, payload, _, _) =>
        PacketReplyWritable(w, byFd, byFd[fd], t, f, payload);
        Answer(PacketSpec(w, byFd, byFd[fd], t, f, payload))
  }

  /** What iotbroker_read_packet makes of the handler's outcome. */
  function Answer(o: Outcome): Served
    requires WritableReply(o)
  {
    if o.ret != SUCESS then Served(o.w, ERROR_SOCK_CLIENT_CLOSE, [])
    else if o.reply.None? then Served(o.w, SUCESS, [])
    else Served(o.w, SUCESS, EncodeFrame(o.reply.value))
  }

  lemma AckReplyWritable(w: World, r: Ref, t: int, load: seq<uint8>)
    requires r in w.heap && IsAck(t)
    ensures WritableReply(AckSpec(w, r, t, load))
  {
    match ReadU16At(load, 0)
    case None =>
    case Some((id, _)) =>
      match FirstMatch(w.heap[r].queue, id, Expected(t))
      case None =>
      case Some(i) =>
        if t == PUBREL {
          var q := w.heap[r].queue;
          var st := Published(Stores(w.heap, w.records), w.nodes, q[i].msg);
          PublishedKeepsClient(Stores(w.heap, w.records), w.nodes, q[i].msg, r);
          assert AckSpec(w, r, t, load).reply == Some(IdFrame(PUBCOMP, id));
        }
  }

  /** Every pair of a SUBSCRIBE payload takes at least three bytes, so SUBACK
      is never longer than the packet that asked for it. */
  lemma {:induction false} SubscribeRetsBound(nodes: map<seq<uint8>, seq<SubNode>>, heap: map<Ref, Client>, r: Ref,
                                              load: seq<uint8>, pos: nat, rets: seq<uint8>)
    requires pos <= |load|
    ensures var out := SubscribeFrom(nodes, heap, r, load, pos, rets).1;
      out.Some? ==> 3 * |out.value| <= 3 * |rets| + |load| - pos
    decreases |load| - pos
  {
    if pos < |load| {
      match ReadStrAt(load, pos)
      case None =>
      case Some((topic, p1)) =>
        ReadStrConsumes(load, pos);
        match ReadU8At(load, p1)
        case None =>
        case Some((qos, p2)) =>
          if qos <= QOS2 {
            SubscribeRetsBound(Subscribed(nodes, heap, topic, qos, r), heap, r, load, p2, rets + [qos]);
          }
    }
  }

  lemma SubscribeReplyWritable(w: World, r: Ref, load: seq<uint8>)
    requires |load| <= MAX_REMAIN_LENGTH
    ensures WritableReply(SubscribeSpec(w, r, load))
  {
    match ReadU16At(load, 0)
    case None =>
    case Some((id, p0)) =>
      SubscribeRetsBound(w.nodes, w.heap, r, load, p0, []);
  }

  /** Every reply a handler builds fits the buffer write_packet allocates. */
  lemma PacketReplyWritable(w: World, byFd: map<int, Ref>, r: Ref, t: int, flags: uint8, load: seq<uint8>)
    requires r in w.heap && |load| <= MAX_REMAIN_LENGTH
    ensures WritableReply(PacketSpec(w, byFd, r, t, flags, load))
  {
    if IsAck(t) {
      AckReplyWritable(w, r, t, load);
    } else if t == SUBSCRIBE {
      SubscribeReplyWritable(w, r, load);
    } else if t == PUBLISH {
      match ParsePublish(flags, load)
      case None =>
      case Some(m) =>
    }
  }

  /** iotbroker_read_packet. */
  method Serve(tbl: Table, reg: Registry, idx: Index, fd: int, s: seq<uint8>) returns (code: int, sent: seq<uint8>)
    requires tbl.Valid() && reg.Valid()
    modifies tbl`heap, reg, idx
    ensures var o := ServeSpec(old(Now(tbl, reg, idx)), old(tbl.byFd), fd, s);
      Now(tbl, reg, idx) == o.w && code == o.code && sent == o.sent
    ensures tbl.Valid() && reg.Valid()
  {
    var c := tbl.Get(fd);
    if c.None? {
      return ERROR_SOCK_CLIENT_NOEXIST, [];
    }
    var d := ReadPacket(s);
    if d.ReadFailed? {
      return d.code, [];
    }
    code, sent := ServePacket(tbl, reg, idx, c.value, d);
  }

  /** handle_packet on a packet read whole, then write_packet of its reply. */
  method ServePacket(tbl: Table, reg: Registry, idx: Index, r: Ref, d: ReadResult) returns (code: int, sent: seq<uint8>)
    requires tbl.Valid() && reg.Valid() && r in tbl.heap
    requires d.Decoded? && |d.payload| <= MAX_REMAIN_LENGTH
    modifies tbl`heap, reg, idx
    ensures var o := PacketSpec(old(Now(tbl, reg, idx)), tbl.byFd, r, d.ptype, d.flags, d.payload);
      WritableReply(o) && Served(Now(tbl, reg, idx), code, sent) == Answer(o)
    ensures tbl.Valid() && reg.Valid()
  {
    ghost var w := Now(tbl, reg, idx);
    var p := new Packet.Inbound(d.ptype, d.flags, d.payload, d.headerLen);
    PacketReplyWritable(w, tbl.byFd, r, d.ptype, d.flags, d.payload);
    var ret, out := HandlePacket(tbl, reg, idx, r, p);
    ghost var o := PacketSpec(w, tbl.byFd, r, d.ptype, d.flags, d.payload);
    assert Now(tbl, reg, idx) == o.w && ret == o.ret && Replied(out, o.reply);
    if ret != SUCESS {
      return ERROR_SOCK_CLIENT_CLOSE, [];
    }
    if out == null {
      return SUCESS, [];
    }
    ghost var f := o.reply.value;
    assert out.Abs() == f && Writable(f);
    sent := Emit(out);
    code := SUCESS;
  }

  /** write_packet of a reply packet: the bytes of its frame. */
  method Emit(out: Packet) returns (sent: seq<uint8>)
    requires Sendable(out) && out.remainLen <= MAX_REMAIN_LENGTH
    modifies out`currentPos
    ensures sent == EncodeFrame(old(out.Abs()))
  {
    var buf, len := WritePacket(out);
    sent := buf[..len];
  }

  /** A PINGREQ from a known client is answered with the two bytes of
      PINGRESP and changes nothing (sections 3.12 and 3.13 of MQTT 3.1.1). */
  lemma PingExchange(w: World, byFd: map<int, Ref>, fd: int, rest: seq<uint8>)
    requires fd in byFd && byFd[fd] in w.heap
    ensures ServeSpec(w, byFd, fd, [0xC0, 0x00] + rest) == Served(w, SUCESS, [0xD0, 0x00])
  {
    FrameReadsBack(Frame(PINGREQ, 0, 0, []), rest);
    assert EncodeFrame(Frame(PINGREQ, 0, 0, [])) == [0xC0, 0x00];
    assert EncodeFrame(PingrespFrame()) == [0xD0, 0x00];
  }

  /** A DISCONNECT closes the client, sends nothing and changes nothing. */
  lemma DisconnectExchange(w: World, byFd: map<int, Ref>, fd: int, rest: seq<uint8>)
    requires fd in byFd && byFd[fd] in w.heap
    ensures ServeSpec(w, byFd, fd, [0xE0, 0x00] + rest) == Served(w, ERROR_SOCK_CLIENT_CLOSE, [])
  {
    FrameReadsBack(Frame(DISCONNECT, 0, 0, []), rest);
    assert EncodeFrame(Frame(DISCONNECT, 0, 0, [])) == [0xE0, 0x00];
  }

  /** A well-formed frame on the stream reaches handle_packet as it was sent,
      and the reply handle_packet builds is what goes back. */
  lemma ServeFrame(w: World, byFd: map<int, Ref>, fd: int, f: Frame, rest: seq<uint8>)
    requires fd in byFd && byFd[fd] in w.heap
    requires CONNECT <= f.ptype <= DISCONNECT && 0 <= f.flags < 16
    requires |f.payload| == f.remainLen <= MAX_REMAIN_LENGTH
    ensures var o := PacketSpec(w, byFd, byFd[fd], f.ptype, f.flags, f.payload);
      WritableReply(o) && ServeSpec(w, byFd, fd, EncodeFrame(f) + rest) == Answer(o)
  {
    FrameReadsBack(f, rest);
    PacketReplyWritable(w, byFd, byFd[fd], f.ptype, f.flags, f.payload);
  }

  // ------------------------------------------------------ draining a queue

  /** The number of outgoing (MD_OUT) entries of `q` that point at record `h`. */
  function OutRefs(q: seq<Delivery>, h: Handle): nat
  {
    if q == [] then 0
    else (if q[0].dir == MdOut && q[0].msg == h then 1 else 0) + OutRefs(q[1..], h)
  }

  /** The number of outgoing entries of `q`, and of those at QoS 0. */
  function OutCount(q: seq<Delivery>): nat
  {
    if q == [] then 0 else (if q[0].dir == MdOut then 1 else 0) + OutCount(q[1..])
  }

  function OutQos0Count(q: seq<Delivery>): nat
  {
    if q == [] then 0 else (if q[0].dir == MdOut && q[0].qos == QOS0 then 1 else 0) + OutQos0Count(q[1..])
  }

  lemma {:induction false} OutRefsAppend(a: seq<Delivery>, b: seq<Delivery>, h: Handle)
    ensures OutRefs(a + b, h) == OutRefs(a, h) + OutRefs(b, h)
    decreases |a|
  {
    if a != [] {
      assert (a + b)[0] == a[0];
      assert (a + b)[1..] == a[1..] + b;
      OutRefsAppend(a[1..], b, h);
    } else {
      assert a + b == b;
    }
  }

  /** Replacing entry `i` by `d` changes the outgoing references only by
      what the two entries contribute. */
  lemma OutRefsReplace(q: seq<Delivery>, i: nat, d: Delivery, h: Handle)
    requires i < |q|
    ensures OutRefs(q[i := d], h) + (if q[i].dir == MdOut && q[i].msg == h then 1 else 0) ==
      OutRefs(q, h) + (if d.dir == MdOut && d.msg == h then 1 else 0)
  {
    assert q == q[..i] + [q[i]] + q[i + 1..];
    assert q[i := d] == q[..i] + [d] + q[i + 1..];
    OutRefsAppend(q[..i] + [q[i]], q[i + 1..], h);
    OutRefsAppend(q[..i], [q[i]], h);
    OutRefsAppend(q[..i] + [d], q[i + 1..], h);
    OutRefsAppend(q[..i], [d], h);
    assert OutRefs([q[i]], h) == (if q[i].dir == MdOut && q[i].msg == h then 1 else 0);
    assert OutRefs([d], h) == (if d.dir == MdOut && d.msg == h then 1 else 0);
  }

  lemma OutRefsRemove(q: seq<Delivery>, i: nat, h: Handle)
    requires i < |q|
    ensures OutRefs(Without(q, i), h) + (if q[i].dir == MdOut && q[i].msg == h then 1 else 0) == OutRefs(q, h)
  {
    assert q == q[..i] + [q[i]] + q[i + 1..];
    OutRefsAppend(q[..i] + [q[i]], q[i + 1..], h);
    OutRefsAppend(q[..i], [q[i]], h);
    OutRefsAppend(q[..i], q[i + 1..], h);
    assert OutRefs([q[i]], h) == (if q[i].dir == MdOut && q[i].msg == h then 1 else 0);
  }

  /** What iotbroker_write_packet relies on for the outgoing entries of a
      queue: each is waiting to be published (send_publish is called for it,
      and any other state would leave `packet` unset), at QoS 0 to 2, its
      message is stored, fits one frame, and holds at least as many
      references as there are outgoing entries still to release it. */
  predicate Drainable(q: seq<Delivery>, records: map<Handle, Record>)
  {
    forall k :: 0 <= k < |q| && q[k].dir == MdOut ==>
      q[k].ps == WaitToPublish && q[k].qos <= QOS2 && q[k].msg in records &&
      Fits(records[q[k].msg].msg) && records[q[k].msg].count >= OutRefs(q, q[k].msg)
  }

  lemma OutRefsPositive(q: seq<Delivery>, i: nat)
    requires i < |q| && q[i].dir == MdOut
    ensures OutRefs(q, q[i].msg) == OutRefs(Without(q, i), q[i].msg) + 1
  {
    OutRefsRemove(q, i, q[i].msg);
  }

  /** Sending a QoS 0 entry: it leaves the queue and releases its message. */
  lemma DrainableAfterRemove(q: seq<Delivery>, i: nat, records: map<Handle, Record>)
    requires i < |q| && q[i].dir == MdOut && Drainable(q, records)
    ensures Drainable(Without(q, i), Released(records, q[i].msg))
  {
    var h := q[i].msg;
    var q' := Without(q, i);
    var rec' := Released(records, h);
    OutRefsPositive(q, i);
    forall k | 0 <= k < |q'| && q'[k].dir == MdOut
      ensures q'[k].msg in rec' && Fits(rec'[q'[k].msg].msg) && rec'[q'[k].msg].count >= OutRefs(q', q'[k].msg)
    {
      var j := if k < i then k else k + 1;
      assert q'[k] == q[j];
      var g := q[j].msg;
      OutRefsRemove(q, i, g);
      if g == h {
        OutRefsPositive(q', k);
        ReleasedCounts(records, h);
      }
    }
  }

  /** Sending a QoS 1 or 2 entry: it becomes MD_IN, the store is unchanged. */
  lemma DrainableAfterMark(q: seq<Delivery>, i: nat, d: Delivery, records: map<Handle, Record>)
    requires i < |q| && q[i].dir == MdOut && d.dir == MdIn && Drainable(q, records)
    ensures Drainable(q[i := d], records)
  {
    var q' := q[i := d];
    forall k | 0 <= k < |q'| && q'[k].dir == MdOut
      ensures records[q'[k].msg].count >= OutRefs(q', q'[k].msg)
    {
      OutRefsReplace(q, i, d, q'[k].msg);
    }
  }

  /** What a drain leaves: the new state and the frames written, in order. */
  datatype Drained = Drained(w: World, frames: seq<Frame>)

  /** The entry `i` of client `r` removed (list_del). */
  function Removed(w: World, r: Ref, i: nat): World
    requires r in w.heap && i < |w.heap[r].queue|
  {
    w.(heap := w.heap[r := w.heap[r].(queue := Without(w.heap[r].queue, i))])
  }

  /** One outgoing entry through handle_message_queue: what the drain relies
      on to go on. */
  lemma DrainStep(w: World, r: Ref, i: nat)
    requires r in w.heap && i < |w.heap[r].queue| && w.heap[r].queue[i].dir == MdOut
    requires Drainable(w.heap[r].queue, w.records)
    ensures var o := MessageQueueSpec(w, r, i); var q := w.heap[r].queue;
      r in o.w.heap && o.reply.Some? && Writable(o.reply.value) &&
      o.w.nodes == w.nodes && o.w.nextHandle == w.nextHandle &&
      (forall r2 :: r2 != r ==> (r2 in o.w.heap <==> r2 in w.heap) && (r2 in w.heap ==> o.w.heap[r2] == w.heap[r2])) &&
      if o.ret == HANDLE_RET_REMOVE_MSG then
        q[i].qos == QOS0 && o.w.heap == w.heap && Drainable(Without(q, i), o.w.records)
      else
        q[i].qos != QOS0 && o.w.records == w.records &&
        |o.w.heap[r].queue| == |q| && o.w.heap[r].queue[i].dir == MdIn &&
        (forall k :: 0 <= k < |q| && k != i ==> o.w.heap[r].queue[k] == q[k]) &&
        Drainable(o.w.heap[r].queue, o.w.records)
  {
    var q := w.heap[r].queue;
    var d := q[i];
    var m := w.records[d.msg].msg;
    if d.qos == QOS0 {
      DrainableAfterRemove(q, i, w.records);
    } else {
      var d' := d.(ps := if d.qos == QOS1 then WaitForPuback else WaitForPubrec, dir := MdIn,
                   packetId := w.heap[r].packetIdSource);
      DrainableAfterMark(q, i, d', w.records);
    }
  }

  /** The list_for_each pass of iotbroker_write_packet from entry `i` on:
      MD_IN entries are skipped; every other entry goes through
      handle_message_queue, is unlinked when it answers REMOVE_MSG, and its
      packet is written. Writes are taken to succeed. */
  function DrainFrom(w: World, r: Ref, i: nat): (d: Drained)
    requires r in w.heap && i <= |w.heap[r].queue| && Drainable(w.heap[r].queue, w.records)
    ensures forall k :: 0 <= k < |d.frames| ==> Writable(d.frames[k])
    decreases |w.heap[r].queue| - i
  {
    var q := w.heap[r].queue;
    if i == |q| then Drained(w, [])
    else if q[i].dir == MdIn then DrainFrom(w, r, i + 1)
    else
      var o := MessageQueueSpec(w, r, i);
      DrainStep(w, r, i);
      var rest :=
        if o.ret == HANDLE_RET_REMOVE_MSG then DrainFrom(Removed(o.w, r, i), r, i)
        else DrainFrom(o.w, r, i + 1);
      Drained(rest.w, [o.reply.value] + rest.frames)
  }

  /** The bytes written for a sequence of frames. */
  predicate ValidFrames(fs: seq<Frame>)
  {
    forall k :: 0 <= k < |fs| ==> ValidFrame(fs[k])
  }

  function EncodeAll(fs: seq<Frame>): seq<uint8>
    requires ValidFrames(fs)
  {
    if fs == [] then [] else EncodeAll(fs[..|fs| - 1]) + EncodeFrame(fs[|fs| - 1])
  }

  /** The pass past one outgoing entry. */
  function DrainNext(w: World, r: Ref, i: nat): (w': World)
    requires r in w.heap && i < |w.heap[r].queue| && w.heap[r].queue[i].dir == MdOut
    requires Drainable(w.heap[r].queue, w.records)
  {
    var o := MessageQueueSpec(w, r, i);
    DrainStep(w, r, i);
    if o.ret == HANDLE_RET_REMOVE_MSG then Removed(o.w, r, i) else o.w
  }

  lemma DrainUnfold(w: World, r: Ref, i: nat)
    requires r in w.heap && i < |w.heap[r].queue| && w.heap[r].queue[i].dir == MdOut
    requires Drainable(w.heap[r].queue, w.records)
    ensures var o := MessageQueueSpec(w, r, i); var w' := DrainNext(w, r, i);
      var i' := if o.ret == HANDLE_RET_REMOVE_MSG then i else i + 1;
      r in w'.heap && i' <= |w'.heap[r].queue| && Drainable(w'.heap[r].queue, w'.records) &&
      |w'.heap[r].queue| - i' < |w.heap[r].queue| - i &&
      DrainFrom(w, r, i) == Drained(DrainFrom(w', r, i').w, [o.reply.value] + DrainFrom(w', r, i').frames)
  {
    DrainStep(w, r, i);
  }

  /** handle_message_queue on one outgoing entry, list_del when it answers
      REMOVE_MSG, and write_packet of its packet. */
  method DrainEntry(tbl: Table, reg: Registry, idx: Index, r: Ref, i: nat) returns (removed: bool, bytes: seq<uint8>)
    requires tbl.Valid() && r in tbl.heap && i < |tbl.heap[r].queue| && tbl.heap[r].queue[i].dir == MdOut
    requires Drainable(tbl.heap[r].queue, reg.records)
    modifies tbl`heap, reg`records
    ensures tbl.Valid() && tbl.byFd == old(tbl.byFd)
    ensures var w := old(Now(tbl, reg, idx)); var o := MessageQueueSpec(w, r, i);
      o.reply.Some? && ValidFrame(o.reply.value) &&
      removed == (o.ret == HANDLE_RET_REMOVE_MSG) && Now(tbl, reg, idx) == DrainNext(w, r, i) &&
      bytes == EncodeFrame(o.reply.value)
  {
    ghost var w := Now(tbl, reg, idx);
    DrainStep(w, r, i);
    var ret, out := HandleMessageQueue(tbl, reg, idx, r, i);
    removed := ret == HANDLE_RET_REMOVE_MSG;
    if removed {
      var cl := tbl.heap[r];
      tbl.Put(r, cl.(queue := Without(cl.queue, i)));
    }
    var buf, len := WritePacket(out);
    bytes := buf[..len];
  }

  lemma {:induction false} EncodeAllAppend(a: seq<Frame>, b: seq<Frame>)
    requires ValidFrames(a) && ValidFrames(b)
    ensures ValidFrames(a + b)
    ensures EncodeAll(a + b) == EncodeAll(a) + EncodeAll(b)
    decreases |b|
  {
    if b == [] {
      assert a + b == a;
      assert EncodeAll(b) == [];
    } else {
      var b', f := EncodeAllLast(b);
      EncodeAllAppend(a, b');
      EncodeAllAppendStep(a, b', f);
    }
  }

  lemma EncodeAllAppendStep(a: seq<Frame>, b: seq<Frame>, f: Frame)
    requires ValidFrames(a) && ValidFrames(b) && ValidFrame(f) && ValidFrames(a + b)
    requires EncodeAll(a + b) == EncodeAll(a) + EncodeAll(b)
    ensures ValidFrames(a + (b + [f])) && ValidFrames(b + [f])
    ensures EncodeAll(a + (b + [f])) == EncodeAll(a) + EncodeAll(b + [f])
  {
    var ab := a + b;
    EncodeAllSnoc(ab, f);
    EncodeAllSnoc(b, f);
    assert a + (b + [f]) == ab + [f];
    var x, y, z := EncodeAll(a), EncodeAll(b), EncodeFrame(f);
    Assoc(x, y, z);
    EqualChain(EncodeAll(a + (b + [f])), EncodeAll(ab) + z, (x + y) + z, x + (y + z));
  }

  lemma EncodeAllLast(b: seq<Frame>) returns (b': seq<Frame>, f: Frame)
    requires ValidFrames(b) && b != []
    ensures ValidFrames(b') && ValidFrame(f) && b == b' + [f]
    ensures EncodeAll(b) == EncodeAll(b') + EncodeFrame(f)
  {
    b', f := b[..|b| - 1], b[|b| - 1];
  }

  lemma EncodeAllSnoc(fs: seq<Frame>, f: Frame)
    requires ValidFrames(fs) && ValidFrame(f)
    ensures ValidFrames(fs + [f])
    ensures EncodeAll(fs + [f]) == EncodeAll(fs) + EncodeFrame(f)
  {
    assert (fs + [f])[..|fs|] == fs;
  }

  /** One step of the list_for_each pass: an MD_IN entry is skipped, an
      outgoing one is handled and written (`fs` is what was written). */
  method DrainAt(tbl: Table, reg: Registry, idx: Index, r: Ref, i: nat) returns (next: nat, bytes: seq<uint8>, ghost fs: seq<Frame>)
    requires tbl.Valid() && r in tbl.heap && i < |tbl.heap[r].queue|
    requires Drainable(tbl.heap[r].queue, reg.records)
    modifies tbl`heap, reg`records
    ensures tbl.Valid() && tbl.byFd == old(tbl.byFd) && r in tbl.heap && next <= |tbl.heap[r].queue|
    ensures Drainable(tbl.heap[r].queue, reg.records)
    ensures |tbl.heap[r].queue| - next < old(|tbl.heap[r].queue|) - i
    ensures ValidFrames(fs)
    ensures bytes == EncodeAll(fs)
    ensures var d := DrainFrom(Now(tbl, reg, idx), r, next);
      DrainFrom(old(Now(tbl, reg, idx)), r, i) == Drained(d.w, fs + d.frames)
  {
    ghost var w := Now(tbl, reg, idx);
    if tbl.heap[r].queue[i].dir == MdIn {
      assert DrainFrom(w, r, i) == DrainFrom(w, r, i + 1);
      return i + 1, [], [];
    }
    DrainUnfold(w, r, i);
    ghost var f := MessageQueueSpec(w, r, i).reply.value;
    var removed;
    removed, bytes := DrainEntry(tbl, reg, idx, r, i);
    next := if removed then i else i + 1;
    fs := [f];
    assert fs[..0] == [];
  }

  /** iotbroker_write_packet for the client on `fd`. */
  method Drain(tbl: Table, reg: Registry, idx: Index, fd: int) returns (code: int, sent: seq<uint8>)
    requires tbl.Valid()
    requires fd in tbl.byFd ==> Drainable(tbl.heap[tbl.byFd[fd]].queue, reg.records)
    modifies tbl`heap, reg`records
    ensures tbl.Valid()
    ensures fd !in old(tbl.byFd) ==> code == ERROR_SOCK_CLIENT_NOEXIST && sent == [] && unchanged(tbl, reg)
    ensures fd in old(tbl.byFd) ==>
      var d := DrainFrom(old(Now(tbl, reg, idx)), old(tbl.byFd[fd]), 0);
      Now(tbl, reg, idx) == d.w && code == SUCESS && sent == EncodeAll(d.frames)
  {
    var c := tbl.Get(fd);
    if c.None? {
      return ERROR_SOCK_CLIENT_NOEXIST, [];
    }
    var r := c.value;
    ghost var whole := DrainFrom(Now(tbl, reg, idx), r, 0);
    ghost var frames: seq<Frame> := [];
    var i: nat := 0;
    sent := [];
    assert DrainRest(DrainFrom(Now(tbl, reg, idx), r, i), whole, frames);
    while i < |tbl.heap[r].queue|
      invariant tbl.Valid() && tbl.byFd == old(tbl.byFd)
      invariant r in tbl.heap && i <= |tbl.heap[r].queue| && Drainable(tbl.heap[r].queue, reg.records)
      invariant DrainRest(DrainFrom(Now(tbl, reg, idx), r, i), whole, frames)
      invariant ValidFrames(frames) && sent == EncodeAll(frames)
      decreases |tbl.heap[r].queue| - i
    {
      ghost var d := DrainFrom(Now(tbl, reg, idx), r, i);
      var bytes;
      ghost var fs;
      i, bytes, fs := DrainAt(tbl, reg, idx, r, i);
      DrainRestStep(d, DrainFrom(Now(tbl, reg, idx), r, i), whole, frames, fs);
      EncodeAllAppend(frames, fs);
      sent := sent + bytes;
      frames := frames + fs;
    }
    DrainRestEnd(Now(tbl, reg, idx), r, i, whole, frames);
    code := SUCESS;
  }

  /** What is left of the pass, `d`, completes the frames written so far. */
  ghost predicate DrainRest(d: Drained, whole: Drained, frames: seq<Frame>)
  {
    d.w == whole.w && frames + d.frames == whole.frames
  }

  lemma DrainRestStep(d: Drained, d': Drained, whole: Drained, frames: seq<Frame>, fs: seq<Frame>)
    requires DrainRest(d, whole, frames) && d == Drained(d'.w, fs + d'.frames)
    ensures DrainRest(d', whole, frames + fs)
  {
    assert frames + (fs + d'.frames) == (frames + fs) + d'.frames;
  }

  lemma DrainRestEnd(w: World, r: Ref, i: nat, whole: Drained, frames: seq<Frame>)
    requires r in w.heap && i == |w.heap[r].queue| && Drainable(w.heap[r].queue, w.records)
    requires DrainRest(DrainFrom(w, r, i), whole, frames)
    ensures w == whole.w && frames == whole.frames
  {
    assert DrainFrom(w, r, i) == Drained(w, []);
    assert frames + [] == frames;
  }

  /** `q2` is what a drain of `q` from entry `i` left after writing `n`
      frames: the entries before `i` are as they were and none after it is
      outgoing; one frame was written per outgoing entry and exactly the
      QoS 0 ones left the queue. */
  predicate Settled(q: seq<Delivery>, q2: seq<Delivery>, i: nat, n: nat)
  {
    i <= |q| && i <= |q2| && |q2| + OutQos0Count(q[i..]) == |q| && q2[..i] == q[..i] &&
    (forall k :: i <= k < |q2| ==> q2[k].dir == MdIn) && n == OutCount(q[i..])
  }

  lemma CountsAt(q: seq<Delivery>, i: nat)
    requires i < |q|
    ensures OutCount(q[i..]) == (if q[i].dir == MdOut then 1 else 0) + OutCount(q[i + 1..])
    ensures OutQos0Count(q[i..]) == (if q[i].dir == MdOut && q[i].qos == QOS0 then 1 else 0) + OutQos0Count(q[i + 1..])
  {
    assert q[i..][1..] == q[i + 1..];
  }

  lemma SettledSkip(q: seq<Delivery>, q2: seq<Delivery>, i: nat, n: nat)
    requires i < |q| && q[i].dir == MdIn && Settled(q, q2, i + 1, n)
    ensures Settled(q, q2, i, n)
  {
    CountsAt(q, i);
    assert q2[..i] == q2[..i + 1][..i];
    assert q[..i] == q[..i + 1][..i];
    assert q2[i] == q2[..i + 1][i];
  }

  lemma SettledRemove(q: seq<Delivery>, q': seq<Delivery>, q2: seq<Delivery>, i: nat, n: nat)
    requires i < |q| && q[i].dir == MdOut && q[i].qos == QOS0 && q' == Without(q, i)
    requires Settled(q', q2, i, n)
    ensures Settled(q, q2, i, n + 1)
  {
    CountsAt(q, i);
    assert q'[i..] == q[i + 1..];
    assert q'[..i] == q[..i];
  }

  lemma SettledMark(q: seq<Delivery>, q': seq<Delivery>, q2: seq<Delivery>, i: nat, n: nat)
    requires i < |q| && q[i].dir == MdOut && q[i].qos != QOS0
    requires |q'| == |q| && q'[i].dir == MdIn && (forall k :: 0 <= k < |q| && k != i ==> q'[k] == q[k])
    requires Settled(q', q2, i + 1, n)
    ensures Settled(q, q2, i, n + 1)
  {
    CountsAt(q, i);
    assert q'[i + 1..] == q[i + 1..];
    assert q2[..i] == q2[..i + 1][..i];
    assert q'[..i + 1][..i] == q[..i];
    assert q2[i] == q2[..i + 1][i];
  }

  /** What a drain from entry `i` leaves of the queue, as `Settled` says. */
  lemma {:induction false} DrainOutcome(w: World, r: Ref, i: nat)
    requires r in w.heap && i <= |w.heap[r].queue| && Drainable(w.heap[r].queue, w.records)
    ensures var d := DrainFrom(w, r, i);
      r in d.w.heap && Settled(w.heap[r].queue, d.w.heap[r].queue, i, |d.frames|)
    decreases |w.heap[r].queue| - i
  {
    var q := w.heap[r].queue;
    if i == |q| {
      assert q[i..] == [];
    } else if q[i].dir == MdIn {
      DrainOutcome(w, r, i + 1);
      var d := DrainFrom(w, r, i + 1);
      assert DrainFrom(w, r, i) == d;
      SettledSkip(q, d.w.heap[r].queue, i, |d.frames|);
    } else {
      DrainUnfold(w, r, i);
      var removed := MessageQueueSpec(w, r, i).ret == HANDLE_RET_REMOVE_MSG;
      var w' := DrainNext(w, r, i);
      var i' := if removed then i else i + 1;
      DrainOutcome(w', r, i');
      DrainOutcomeStep(w, r, i, w', i', DrainFrom(w', r, i'), DrainFrom(w, r, i));
    }
  }

  lemma DrainOutcomeStep(w: World, r: Ref, i: nat, w': World, i': nat, d: Drained, d0: Drained)
    requires r in w.heap && i < |w.heap[r].queue| && w.heap[r].queue[i].dir == MdOut
    requires Drainable(w.heap[r].queue, w.records)
    requires w' == DrainNext(w, r, i)
    requires i' == if MessageQueueSpec(w, r, i).ret == HANDLE_RET_REMOVE_MSG then i else i + 1
    requires r in w'.heap && r in d.w.heap && Settled(w'.heap[r].queue, d.w.heap[r].queue, i', |d.frames|)
    requires d0.w == d.w && |d0.frames| == |d.frames| + 1
    ensures r in d0.w.heap && Settled(w.heap[r].queue, d0.w.heap[r].queue, i, |d0.frames|)
  {
    DrainStep(w, r, i);
    var q := w.heap[r].queue;
    if MessageQueueSpec(w, r, i).ret == HANDLE_RET_REMOVE_MSG {
      SettledRemove(q, w'.heap[r].queue, d.w.heap[r].queue, i, |d.frames|);
    } else {
      SettledMark(q, w'.heap[r].queue, d.w.heap[r].queue, i, |d.frames|);
    }
  }

  /** A drain touches no other client, the index or the handle counter. */
  lemma {:induction false} DrainFrames(w: World, r: Ref, i: nat)
    requires r in w.heap && i <= |w.heap[r].queue| && Drainable(w.heap[r].queue, w.records)
    ensures var d := DrainFrom(w, r, i);
      d.w.nodes == w.nodes && d.w.nextHandle == w.nextHandle && d.w.heap.Keys == w.heap.Keys &&
      (forall r2 :: r2 in w.heap && r2 != r ==> d.w.heap[r2] == w.heap[r2])
    decreases |w.heap[r].queue| - i
  {
    var q := w.heap[r].queue;
    if i < |q| {
      if q[i].dir == MdIn {
        DrainFrames(w, r, i + 1);
      } else {
        DrainUnfold(w, r, i);
        DrainStep(w, r, i);
        var o := MessageQueueSpec(w, r, i);
        DrainFrames(DrainNext(w, r, i), r, if o.ret == HANDLE_RET_REMOVE_MSG then i else i + 1);
      }
    }
  }

  /** Once a queue holds no outgoing entry a drain sends nothing and changes
      nothing. */
  lemma {:induction false} DrainQuiet(w: World, r: Ref, i: nat)
    requires r in w.heap && i <= |w.heap[r].queue|
    requires forall k :: i <= k < |w.heap[r].queue| ==> w.heap[r].queue[k].dir == MdIn
    ensures Drainable(w.heap[r].queue[i..], w.records)
    ensures Drainable(w.heap[r].queue, w.records) ==> DrainFrom(w, r, i) == Drained(w, [])
    decreases |w.heap[r].queue| - i
  {
    if i < |w.heap[r].queue| {
      DrainQuiet(w, r, i + 1);
    }
  }

  /** Draining twice sends the outgoing entries once: the second pass writes
      nothing and leaves the state as the first left it. */
  lemma DrainIdempotent(w: World, r: Ref)
    requires r in w.heap && Drainable(w.heap[r].queue, w.records)
    ensures var d := DrainFrom(w, r, 0);
      r in d.w.heap && Drainable(d.w.heap[r].queue, d.w.records) && DrainFrom(d.w, r, 0) == Drained(d.w, [])
  {
    DrainOutcome(w, r, 0);
    var d := DrainFrom(w, r, 0);
    assert Drainable(d.w.heap[r].queue, d.w.records);
    DrainQuiet(d.w, r, 0);
  }

  // ------------------------------- the invariant across reads and drains

  /** The outgoing references of a queue are among all its references. */
  lemma {:induction false} OutRefsBelow(q: seq<Delivery>, h: Handle)
    ensures OutRefs(q, h) <= Occurrences(q, h)
    decreases |q|
  {
    if q != [] {
      OutRefsBelow(q[1..], h);
    }
  }

  /** Under the store-wide invariant every session's queue can be drained:
      what iotbroker_write_packet relies on holds of each. */
  lemma ConsistentDrainable(w: World, n: nat, r: Ref)
    requires Consistent(w, n) && r in w.heap
    ensures Drainable(w.heap[r].queue, w.records)
  {
    var q := w.heap[r].queue;
    RefsMatchReleasable(Stores(w.heap, w.records), n, r);
    forall k | 0 <= k < |q| && q[k].dir == MdOut
      ensures q[k].ps == WaitToPublish && q[k].qos <= QOS2 && q[k].msg in w.records &&
        Fits(w.records[q[k].msg].msg) && w.records[q[k].msg].count >= OutRefs(q, q[k].msg)
    {
      assert EntryOk(w.records, q[k]);
      OutRefsBelow(q, q[k].msg);
    }
  }

  /** One outgoing entry written keeps the invariant. */
  lemma DrainNextKeeps(w: World, r: Ref, i: nat, n: nat)
    requires r in w.heap && i < |w.heap[r].queue| && w.heap[r].queue[i].dir == MdOut
    requires Drainable(w.heap[r].queue, w.records) && Consistent(w, n)
    ensures Consistent(DrainNext(w, r, i), n)
  {
    var st := Stores(w.heap, w.records);
    var c := w.heap[r];
    var d := c.queue[i];
    assert d.ps == WaitToPublish;
    if d.qos == QOS0 {
      RemoveReleaseKeeps(st, r, i, n);
    } else {
      var id := c.packetIdSource;
      var d' := d.(ps := if d.qos == QOS1 then WaitForPuback else WaitForPubrec, dir := MdIn, packetId := id);
      ReplaceKeeps(st, r, i, d', c.(queue := c.queue[i := d'], packetIdSource := Inc16(id)), n);
    }
  }

  /** iotbroker_write_packet keeps the invariant. */
  lemma {:induction false} DrainFromKeeps(w: World, r: Ref, i: nat, n: nat)
    requires r in w.heap && i <= |w.heap[r].queue| && Drainable(w.heap[r].queue, w.records) && Consistent(w, n)
    ensures Consistent(DrainFrom(w, r, i).w, n)
    decreases |w.heap[r].queue| - i
  {
    var q := w.heap[r].queue;
    if i < |q| {
      if q[i].dir == MdIn {
        DrainFromKeeps(w, r, i + 1, n);
      } else {
        var o := MessageQueueSpec(w, r, i);
        DrainUnfold(w, r, i);
        DrainNextKeeps(w, r, i, n);
        var i' := if o.ret == HANDLE_RET_REMOVE_MSG then i else i + 1;
        DrainFromKeeps(DrainNext(w, r, i), r, i', n);
      }
    }
  }

  /** iotbroker_read_packet keeps the invariant, whatever bytes arrive. */
  lemma ServeKeeps(w: World, byFd: map<int, Ref>, fd: int, s: seq<uint8>, n: nat)
    requires (fd in byFd ==> byFd[fd] in w.heap) && Consistent(w, n)
    ensures Consistent(ServeSpec(w, byFd, fd, s).w, n)
  {
    if fd in byFd {
      match DecodePacket(s)
      case ReadFailed(_) =>
      case Decoded(t, f, payload, _, _) =>
        PacketSpecKeeps(w, byFd, byFd[fd], t, f, payload, n);
    }
  }
}
