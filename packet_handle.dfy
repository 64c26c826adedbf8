/** The control-packet handlers of packet_handle.c: each inbound packet is
    parsed with the field readers, acts on the session table, the message
    store and the subscription index, and may produce one reply packet. */
module PacketHandle {
  import opened CTypes
  import opened Codec
  import opened MessageStore
  import opened Session
  import opened SubTree

  // the handler return values of packet_handle.h
  const HANDLE_RET_CLOSE_CLIENT := 1
  const HANDLE_RET_REMOVE_MSG := 2
  const HANDLE_RET_KEEP_MSG := 3

  /** "MQTT" */
  const PROTOCOL_NAME: seq<uint8> := [0x4D, 0x51, 0x54, 0x54]
  const PROTOCOL_MAX_LEVEL := 4

  const CONNECT_FLAG_RESERVED: uint8 := 0x01
  const CONNECT_FLAG_WILL_FLAG: uint8 := 0x04
  const CONNECT_FLAG_USERNAME: uint8 := 0x40
  const CONNECT_FLAG_PASSWORD: uint8 := 0x80

  const CONNECT_RET_OK: uint8 := 0x00
  const CONNECT_RET_INVALID_PROTOCOL_LEVEL: uint8 := 0x01

  // ------------------------------------------------------ the broker state

  /** The three globals the handlers act on, as one value: the clients of the
      session table, the message store and the subscription index. */
  datatype World = World(
    heap: map<Ref, Client>,
    records: map<Handle, Record>,
    nextHandle: Handle,
    nodes: map<seq<uint8>, seq<SubNode>>)

  function Now(tbl: Table, reg: Registry, idx: Index): World
    reads tbl, reg, idx
  {
    World(tbl.heap, reg.records, reg.nextHandle, idx.nodes)
  }

  /** What a handler leaves behind: the new state, its return value and the
      packet it puts in `*out_packet` (None for NULL). */
  datatype Outcome = Outcome(w: World, ret: int, reply: Option<Frame>)

  // ------------------------------------------------------------ the replies

  /** The conditions write_packet relies on. */
  predicate Sendable(p: Packet)
    reads p
  {
    0 <= p.remainLen && p.loadPos <= p.load.Length && p.loadPos <= p.remainLen &&
    ValidHeader(p.ptype, p.flags)
  }

  /** `*out_packet` is a new packet that will be written as frame `f`, or is
      left NULL when there is no frame. */
  predicate Replied(out: Packet?, f: Option<Frame>)
    reads out, if out != null then {out.load} else {}
  {
    if out == null then f.None? else f.Some? && Sendable(out) && out.Abs() == f.value
  }

  /** send_connack: the session-present bit and the return code. */
  function ConnackFrame(sp: uint8, ret: uint8): Frame
  {
    Frame(CONNACK, 0, 2, [sp % 2, ret])
  }

  /** build_packet_with_packetid: a two-byte payload holding the packet id. */
  function IdFrame(t: int, id: uint16): Frame
  {
    Frame(t, 0, 2, U16Bytes(id))
  }

  function PingrespFrame(): Frame
  {
    Frame(PINGRESP, 0, 0, [])
  }

  /** send_suback: the packet id and one return code per filter; the
      remaining length counts every return code. */
  function SubackFrame(id: uint16, rets: seq<uint8>): Frame
  {
    Frame(SUBACK, 0, 2 + |rets|, U16Bytes(id) + rets)
  }

  /** The remaining length send_suback writes into the header: the filter
      count arrives as a UINT16, so it is taken modulo 2^16. */
  function SubackRemainLenAsWritten(n: nat): nat
  {
    2 + n % 0x1_0000
  }

  /** The acknowledgements carry their packet id in the frame MQTT 3.1.1
      gives them (section 3.4 to 3.7, 3.11): remaining length 2, then the id. */
  lemma IdFrameBytes(t: int, id: uint16)
    requires CONNECT <= t <= DISCONNECT
    ensures EncodeFrame(IdFrame(t, id)) == [t * 16, 2, id / 256, id % 256]
    ensures ReadU16At(IdFrame(t, id).payload, 0) == Some((id, 2))
  {
    assert Varint(2) == [2];
  }

  /** A CONNACK is four bytes: 0x20, 2, the session-present bit, the code. */
  lemma ConnackBytes(sp: uint8, ret: uint8)
    ensures EncodeFrame(ConnackFrame(sp, ret)) == [0x20, 2, sp % 2, ret]
  {
    assert Varint(2) == [2];
  }

  /** The remaining length of a SUBACK covers exactly its payload, and the
      return codes follow the packet id in filter order. */
  lemma SubackCovers(id: uint16, rets: seq<uint8>)
    ensures |SubackFrame(id, rets).payload| == SubackFrame(id, rets).remainLen
    ensures ReadU16At(SubackFrame(id, rets).payload, 0) == Some((id, 2))
    ensures SubackFrame(id, rets).payload[2..] == rets
  {
  }

  /** With 65536 filters the header announces 2 bytes while 65538 are
      written after it. */
  lemma SubackLengthWraps(id: uint16, rets: seq<uint8>)
    requires |rets| == 0x1_0000
    ensures SubackRemainLenAsWritten(|rets|) == 2
    ensures |SubackFrame(id, rets).payload| == 0x1_0002
    ensures SubackRemainLenAsWritten(|rets|) != |SubackFrame(id, rets).payload|
  {
  }

  method SendConnack(sp: uint8, ret: uint8) returns (p: Packet)
    ensures fresh(p) && fresh(p.load)
    ensures Replied(p, Some(ConnackFrame(sp, ret)))
  {
    p := new Packet.Outbound(CONNACK, 0, 2, 2);
    p.WriteUint8(sp % 2);
    p.WriteUint8(ret);
    assert p.load[..2] == [sp % 2, ret];
  }

  method BuildPacketWithPacketId(id: uint16, t: int) returns (p: Packet)
    requires ValidHeader(t, 0)
    ensures fresh(p) && fresh(p.load)
    ensures Replied(p, Some(IdFrame(t, id)))
  {
    p := new Packet.Outbound(t, 0, 2, 2);
    p.WriteUint16(id);
    assert p.load[..2] == U16Bytes(id);
  }

  method SendPingresp() returns (p: Packet)
    ensures fresh(p) && fresh(p.load)
    ensures Replied(p, Some(PingrespFrame()))
  {
    p := new Packet.Outbound(PINGRESP, 0, 0, 0);
  }

  method SendSuback(id: uint16, rets: seq<uint8>) returns (p: Packet)
    ensures fresh(p) && fresh(p.load)
    ensures Replied(p, Some(SubackFrame(id, rets)))
  {
    p := new Packet.Outbound(SUBACK, 0, 2 + |rets|, 2 + |rets|);
    p.WriteUint16(id);
    assert p.load[..2] == U16Bytes(id);
    var i := 0;
    while i < |rets|
      invariant 0 <= i <= |rets|
      invariant p.loadPos == 2 + i && p.load.Length == 2 + |rets|
      invariant p.load[..p.loadPos] == U16Bytes(id) + rets[..i]
      invariant p.ptype == SUBACK && p.flags == 0 && p.remainLen == 2 + |rets|
      invariant fresh(p) && fresh(p.load)
    {
      ghost var before := p.load[..p.loadPos];
      p.WriteUint8(rets[i]);
      assert p.load[..p.loadPos] == before + [rets[i]];
      assert rets[..i + 1] == rets[..i] + [rets[i]];
      i := i + 1;
    }
    assert rets[..i] == rets;
  }

  // ---------------------------------------------------------------- CONNECT

  /** The protocol level byte as the INT8 it is stored in. */
  function AsInt8(b: uint8): int
  {
    if b < 0x80 then b else b - 0x100
  }

  /** The fields of a CONNECT payload after the protocol name, in order. */
  datatype ConnectRequest = ConnectRequest(
    level: uint8,
    flags: uint8,
    keepalive: uint16,
    clientId: seq<uint8>,
    willTopic: Option<seq<uint8>>,
    willMessage: Option<seq<uint8>>,
    username: Option<seq<uint8>>,
    password: Option<seq<uint8>>)

  /** What handle_connect makes of a payload. Refused: the client is closed
      without a reply (wrong protocol name, reserved flag set, or a field that
      lies past the payload). */
  datatype ConnectParse =
    | Refused
    | LevelRejected
    | Accepted(req: ConnectRequest)

  /** read_str of an optional field: nothing is read when it is absent. */
  function ReadOptStr(load: seq<uint8>, pos: nat, present: bool): (r: Option<(Option<seq<uint8>>, nat)>)
    ensures r.Some? ==> (r.value.0.Some? <==> present) && pos <= r.value.1 <= |load|
  {
    if !present then if pos <= |load| then Some((None, pos)) else None
    else
      match ReadStrAt(load, pos)
      case None => None
      case Some(x) => Some((Some(x.0), x.1))
  }

  /** The will topic and will message, read when the will flag is set. */
  function ReadWill(load: seq<uint8>, pos: nat, flags: uint8): Option<(Option<seq<uint8>>, Option<seq<uint8>>, nat)>
  {
    match ReadOptStr(load, pos, HasFlag(flags, CONNECT_FLAG_WILL_FLAG))
    case None => None
    case Some((wt, p)) =>
      match ReadOptStr(load, p, HasFlag(flags, CONNECT_FLAG_WILL_FLAG))
      case None => None
      case Some((wm, q)) => Some((wt, wm, q))
  }

  /** The username, read under the username flag, and the password, read
      under `passwordFlag`. */
  function ReadCredentials(load: seq<uint8>, pos: nat, flags: uint8, passwordFlag: uint8)
    : Option<(Option<seq<uint8>>, Option<seq<uint8>>)>
  {
    match ReadOptStr(load, pos, HasFlag(flags, CONNECT_FLAG_USERNAME))
    case None => None
    case Some((u, p)) =>
      match ReadOptStr(load, p, HasFlag(flags, passwordFlag))
      case None => None
      case Some((pw, _)) => Some((u, pw))
  }

  /** The fields after the connect flags. */
  function ReadConnectTail(load: seq<uint8>, pos: nat, level: uint8, flags: uint8,
                           passwordFlag: uint8): Option<ConnectRequest>
  {
    match ReadU16At(load, pos)
    case None => None
    case Some((ka, p1)) =>
      match ReadStrAt(load, p1)
      case None => None
      case Some((id, p2)) =>
        match ReadWill(load, p2, flags)
        case None => None
        case Some((wt, wm, p3)) =>
          match ReadCredentials(load, p3, flags, passwordFlag)
          case None => None
          case Some((u, pw)) => Some(ConnectRequest(level, flags, ka, id, wt, wm, u, pw))
  }

  /** handle_connect's parse. `signedLevel` compares the level as the INT8
      the source stores it in; `passwordFlag` is the flag that gates the
      password field. */
  function ParseConnectWith(load: seq<uint8>, signedLevel: bool, passwordFlag: uint8): ConnectParse
  {
    match ReadStrAt(load, 0)
    case None => Refused
    case Some((name, p1)) =>
      if name != PROTOCOL_NAME then Refused
      else
        match ReadU8At(load, p1)
        case None => Refused
        case Some((level, p2)) =>
          if (if signedLevel then AsInt8(level) else level) > PROTOCOL_MAX_LEVEL then LevelRejected
          else
            match ReadU8At(load, p2)
            case None => Refused
            case Some((flags, p3)) =>
              if HasFlag(flags, CONNECT_FLAG_RESERVED) then Refused
              else
                match ReadConnectTail(load, p3, level, flags, passwordFlag)
                case None => Refused
                case Some(req) => Accepted(req)
  }

  /** The parse the model uses: an unsigned level and the password flag. */
  function ParseConnect(load: seq<uint8>): ConnectParse
  {
    ParseConnectWith(load, false, CONNECT_FLAG_PASSWORD)
  }

  /** The parse as packet_handle.c writes it: the level is an INT8 and the
      password is read under the username flag. */
  function ParseConnectAsWritten(load: seq<uint8>): ConnectParse
  {
    ParseConnectWith(load, true, CONNECT_FLAG_USERNAME)
  }

  /** The session of `fd` after an accepted CONNECT: the client id is set, the
      credentials are stored when either is present, the state is CONNECTING. */
  function Connected(byFd: map<int, Ref>, heap: map<Ref, Client>, fd: int, req: ConnectRequest): map<Ref, Client>
  {
    var h1 := WithId(byFd, heap, fd, req.clientId);
    var h2 := if req.username.Some? || req.password.Some? then WithAuth(byFd, h1, fd, req.username, req.password) else h1;
    WithState(byFd, h2, fd, Connecting)
  }

  /** handle_connect. A level above 4 is answered with return code 1 and
      changes nothing; the session-present byte is uninitialised there in the
      source and is 0 here. */
  function ConnectSpec(w: World, byFd: map<int, Ref>, fd: int, load: seq<uint8>): Outcome
  {
    match ParseConnect(load)
    case Refused => Outcome(w, HANDLE_RET_CLOSE_CLIENT, None)
    case LevelRejected => Outcome(w, SUCESS, Some(ConnackFrame(0, CONNECT_RET_INVALID_PROTOCOL_LEVEL)))
    case Accepted(req) =>
      Outcome(w.(heap := Connected(byFd, w.heap, fd, req)), SUCESS, Some(ConnackFrame(0, CONNECT_RET_OK)))
  }

  method ReadOptionalStr(p: Packet, present: bool) returns (r: Option<Option<seq<uint8>>>)
    modifies p`loadPos
    ensures var x := ReadOptStr(p.load[..], old(p.loadPos), present);
      (x.None? ==> r.None?) &&
      (x.Some? ==> r == Some(x.value.0) && p.loadPos == x.value.1)
  {
    if !present {
      if p.loadPos <= p.load.Length {
        return Some(None);
      }
      return None;
    }
    var s := p.ReadStr();
    if s.None? {
      return None;
    }
    return Some(Some(s.value));
  }

  method ReadWillFields(p: Packet, flags: uint8) returns (r: Option<(Option<seq<uint8>>, Option<seq<uint8>>)>)
    modifies p`loadPos
    ensures var x := ReadWill(p.load[..], old(p.loadPos), flags);
      (x.None? ==> r.None?) && (x.Some? ==> r == Some((x.value.0, x.value.1)) && p.loadPos == x.value.2)
  {
    var willTopic := ReadOptionalStr(p, HasFlag(flags, CONNECT_FLAG_WILL_FLAG));
    if willTopic.None? {
      return None;
    }
    var willMessage := ReadOptionalStr(p, HasFlag(flags, CONNECT_FLAG_WILL_FLAG));
    if willMessage.None? {
      return None;
    }
    return Some((willTopic.value, willMessage.value));
  }

  method ReadCredentialFields(p: Packet, flags: uint8) returns (r: Option<(Option<seq<uint8>>, Option<seq<uint8>>)>)
    modifies p`loadPos
    ensures r == ReadCredentials(p.load[..], old(p.loadPos), flags, CONNECT_FLAG_PASSWORD)
  {
    var username := ReadOptionalStr(p, HasFlag(flags, CONNECT_FLAG_USERNAME));
    if username.None? {
      return None;
    }
    var password := ReadOptionalStr(p, HasFlag(flags, CONNECT_FLAG_PASSWORD));
    if password.None? {
      return None;
    }
    return Some((username.value, password.value));
  }

  /** The reads of handle_connect after the connect flags. */
  method ReadConnectFields(p: Packet, level: uint8, flags: uint8) returns (req: Option<ConnectRequest>)
    modifies p`loadPos
    ensures req == ReadConnectTail(p.load[..], old(p.loadPos), level, flags, CONNECT_FLAG_PASSWORD)
  {
    var keepalive := p.ReadUint16();
    if keepalive.None? {
      return None;
    }
    var clientId := p.ReadStr();
    if clientId.None? {
      return None;
    }
    var will := ReadWillFields(p, flags);
    if will.None? {
      return None;
    }
    var cred := ReadCredentialFields(p, flags);
    if cred.None? {
      return None;
    }
    return Some(ConnectRequest(level, flags, keepalive.value, clientId.value, will.value.0,
                               will.value.1, cred.value.0, cred.value.1));
  }

  /** The reads and checks of handle_connect, up to the first decision. */
  method ReadConnect(p: Packet) returns (c: ConnectParse)
    requires p.loadPos == 0
    modifies p`loadPos
    ensures c == ParseConnect(p.load[..])
  {
    var name := p.ReadStr();
    if name.None? || name.value != PROTOCOL_NAME {
      return Refused;
    }
    var level := p.ReadUint8();
    if level.None? {
      return Refused;
    }
    if level.value > PROTOCOL_MAX_LEVEL {
      return LevelRejected;
    }
    var flags := p.ReadUint8();
    if flags.None? || HasFlag(flags.value, CONNECT_FLAG_RESERVED) {
      return Refused;
    }
    var req := ReadConnectFields(p, level.value, flags.value);
    if req.None? {
      return Refused;
    }
    return Accepted(req.value);
  }

  method HandleConnect(tbl: Table, reg: Registry, idx: Index, r: Ref, p: Packet) returns (ret: int, out: Packet?)
    requires tbl.Valid() && r in tbl.heap && p.loadPos == 0
    modifies tbl`heap, p`loadPos
    ensures out != null ==> fresh(out) && fresh(out.load)
    ensures var o := ConnectSpec(old(Now(tbl, reg, idx)), tbl.byFd, old(tbl.heap[r].sockFd), p.load[..]);
      Now(tbl, reg, idx) == o.w && ret == o.ret && Replied(out, o.reply)
    ensures tbl.Valid()
  {
    var c := ReadConnect(p);
    match c
    case Refused =>
      return HANDLE_RET_CLOSE_CLIENT, null;
    case LevelRejected =>
      out := SendConnack(0, CONNECT_RET_INVALID_PROTOCOL_LEVEL);
      return SUCESS, out;
    case Accepted(req) =>
      Connect(tbl, tbl.heap[r].sockFd, req);
      out := SendConnack(0, CONNECT_RET_OK);
      ret := SUCESS;
  }

  /** The session updates of an accepted CONNECT. */
  method Connect(tbl: Table, fd: int, req: ConnectRequest)
    requires tbl.Valid()
    modifies tbl`heap
    ensures tbl.heap == Connected(tbl.byFd, old(tbl.heap), fd, req)
    ensures tbl.Valid()
  {
    tbl.SetId(fd, req.clientId);
    if req.username.Some? || req.password.Some? {
      var _ := tbl.Auth(fd, req.username, req.password);
    }
    tbl.StateMod(fd, Connecting);
  }

  // ------------------------------------------------- CONNECT, what it means

  /** A string MQTT 3.1.1 can carry (section 1.5.3) and strncpy keeps whole. */
  predicate WireString(s: seq<uint8>)
  {
    NUL !in s && |s| < 0x1_0000
  }

  predicate WireOpt(o: Option<seq<uint8>>)
  {
    o.Some? ==> WireString(o.value)
  }

  /** An optional field on the wire: its string, or nothing when absent. */
  function OptField(o: Option<seq<uint8>>): seq<uint8>
    requires WireOpt(o)
  {
    if o.Some? then Str(o.value) else []
  }

  /** A CONNECT request whose fields a client can send: strings MQTT 3.1.1 can
      carry, and optional fields present exactly as the flags say (section
      3.1.2). */
  predicate WireFields(req: ConnectRequest)
  {
    WireString(req.clientId) &&
    WireOpt(req.willTopic) && WireOpt(req.willMessage) && WireOpt(req.username) && WireOpt(req.password) &&
    (req.willTopic.Some? <==> HasFlag(req.flags, CONNECT_FLAG_WILL_FLAG)) &&
    (req.willMessage.Some? <==> HasFlag(req.flags, CONNECT_FLAG_WILL_FLAG)) &&
    (req.username.Some? <==> HasFlag(req.flags, CONNECT_FLAG_USERNAME)) &&
    (req.password.Some? <==> HasFlag(req.flags, CONNECT_FLAG_PASSWORD))
  }

  /** A sendable request of a supported level with the reserved flag clear. */
  predicate WellFormedConnect(req: ConnectRequest)
  {
    req.level <= PROTOCOL_MAX_LEVEL && !HasFlag(req.flags, CONNECT_FLAG_RESERVED) && WireFields(req)
  }

  function WillField(req: ConnectRequest): seq<uint8>
    requires WireFields(req)
  {
    OptField(req.willTopic) + OptField(req.willMessage)
  }

  function CredentialsField(req: ConnectRequest): seq<uint8>
    requires WireFields(req)
  {
    OptField(req.username) + OptField(req.password)
  }

  /** The payload fields after the connect flags, as a client sends them. */
  function EncodeConnectTail(req: ConnectRequest): seq<uint8>
    requires WireFields(req)
  {
    U16Bytes(req.keepalive) + (Str(req.clientId) + (WillField(req) + CredentialsField(req)))
  }

  /** The CONNECT payload of MQTT 3.1.1, sections 3.1.2 and 3.1.3. */
  function EncodeConnect(req: ConnectRequest): seq<uint8>
    requires WireFields(req)
  {
    Str(PROTOCOL_NAME) + [req.level, req.flags] + EncodeConnectTail(req)
  }

  lemma OptFieldRoundTrip(load: seq<uint8>, pre: seq<uint8>, o: Option<seq<uint8>>, rest: seq<uint8>, present: bool)
    requires WireOpt(o) && load == pre + OptField(o) + rest && present == o.Some?
    ensures ReadOptStr(load, |pre|, present) == Some((o, |pre| + |OptField(o)|))
  {
    if o.Some? {
      StrRoundTrip(pre, o.value, rest);
    }
  }

  lemma WillRoundTrip(load: seq<uint8>, pre: seq<uint8>, req: ConnectRequest, rest: seq<uint8>) returns (p: nat)
    requires WireFields(req) && load == pre + (WillField(req) + rest)
    ensures ReadWill(load, |pre|, req.flags) == Some((req.willTopic, req.willMessage, p))
    ensures p == |pre| + |WillField(req)|
  {
    var f0, f1 := OptField(req.willTopic), OptField(req.willMessage);
    Assoc(f0, f1, rest);
    Assoc(pre, f0, f1 + rest);
    OptFieldRoundTrip(load, pre, req.willTopic, f1 + rest, HasFlag(req.flags, CONNECT_FLAG_WILL_FLAG));
    Assoc(pre + f0, f1, rest);
    OptFieldRoundTrip(load, pre + f0, req.willMessage, rest, HasFlag(req.flags, CONNECT_FLAG_WILL_FLAG));
    p := |pre| + |WillField(req)|;
    WillFromPieces(load, |pre|, req.flags, req.willTopic, |pre + f0|, req.willMessage, p);
  }

  lemma WillFromPieces(load: seq<uint8>, pos: nat, flags: uint8, wt: Option<seq<uint8>>, p: nat,
                       wm: Option<seq<uint8>>, q: nat)
    requires ReadOptStr(load, pos, HasFlag(flags, CONNECT_FLAG_WILL_FLAG)) == Some((wt, p))
    requires ReadOptStr(load, p, HasFlag(flags, CONNECT_FLAG_WILL_FLAG)) == Some((wm, q))
    ensures ReadWill(load, pos, flags) == Some((wt, wm, q))
  {
  }

  /** The credential fields, read back from `pos`, the end of `pre`. */
  lemma CredentialsRoundTrip(load: seq<uint8>, pre: seq<uint8>, pos: nat, req: ConnectRequest)
    requires WireFields(req) && load == pre + CredentialsField(req) && pos == |pre|
    ensures ReadCredentials(load, pos, req.flags, CONNECT_FLAG_PASSWORD) == Some((req.username, req.password))
  {
    var f2, f3 := OptField(req.username), OptField(req.password);
    var pre2 := pre + f2;
    Assoc(pre, f2, f3);
    OptFieldRoundTrip(load, pre, req.username, f3, HasFlag(req.flags, CONNECT_FLAG_USERNAME));
    AppendNil(pre2 + f3);
    OptFieldRoundTrip(load, pre2, req.password, [], HasFlag(req.flags, CONNECT_FLAG_PASSWORD));
    var p := |pre2|;
    var q := |pre2| + |f3|;
    assert ReadOptStr(load, pos, HasFlag(req.flags, CONNECT_FLAG_USERNAME)) == Some((req.username, p));
    assert ReadOptStr(load, p, HasFlag(req.flags, CONNECT_FLAG_PASSWORD)) == Some((req.password, q));
    CredentialsFromPieces(load, pos, req.flags, CONNECT_FLAG_PASSWORD, req.username, p, req.password, q);
  }

  lemma AppendNil(x: seq<uint8>)
    ensures x + [] == x
  {
  }

  lemma CredentialsFromPieces(load: seq<uint8>, pos: nat, flags: uint8, passwordFlag: uint8,
                              u: Option<seq<uint8>>, p: nat, pw: Option<seq<uint8>>, q: nat)
    requires ReadOptStr(load, pos, HasFlag(flags, CONNECT_FLAG_USERNAME)) == Some((u, p))
    requires ReadOptStr(load, p, HasFlag(flags, passwordFlag)) == Some((pw, q))
    ensures ReadCredentials(load, pos, flags, passwordFlag) == Some((u, pw))
  {
  }

  /** ReadConnectTail from its four pieces. */
  lemma TailFromPieces(load: seq<uint8>, pos: nat, level: uint8, flags: uint8, passwordFlag: uint8,
                       ka: uint16, id: seq<uint8>, p2: nat, wt: Option<seq<uint8>>, wm: Option<seq<uint8>>, p3: nat,
                       u: Option<seq<uint8>>, pw: Option<seq<uint8>>)
    requires ReadU16At(load, pos) == Some((ka, pos + 2))
    requires ReadStrAt(load, pos + 2) == Some((id, p2))
    requires ReadWill(load, p2, flags) == Some((wt, wm, p3))
    requires ReadCredentials(load, p3, flags, passwordFlag) == Some((u, pw))
    ensures ReadConnectTail(load, pos, level, flags, passwordFlag) == Some(ConnectRequest(level, flags, ka, id, wt, wm, u, pw))
  {
  }

  /** ParseConnectWith of a payload whose name, level and flags pass. */
  lemma ParseFromPieces(load: seq<uint8>, signedLevel: bool, passwordFlag: uint8, req: ConnectRequest)
    requires ReadStrAt(load, 0) == Some((PROTOCOL_NAME, 6)) && 8 <= |load|
    requires load[6] == req.level && load[7] == req.flags
    requires (if signedLevel then AsInt8(req.level) else req.level) <= PROTOCOL_MAX_LEVEL
    requires !HasFlag(req.flags, CONNECT_FLAG_RESERVED)
    requires ReadConnectTail(load, 8, req.level, req.flags, passwordFlag) == Some(req)
    ensures ParseConnectWith(load, signedLevel, passwordFlag) == Accepted(req)
  {
  }

  lemma Assoc(x: seq<uint8>, y: seq<uint8>, z: seq<uint8>)
    ensures x + (y + z) == (x + y) + z
  {
  }

  /** The keep-alive and the client id, read back; `p2` is where the client
      id ends. */
  lemma HeadRoundTrip(load: seq<uint8>, pre: seq<uint8>, req: ConnectRequest, rest: seq<uint8>) returns (p2: nat)
    requires WireFields(req) && load == pre + (U16Bytes(req.keepalive) + (Str(req.clientId) + rest))
    ensures ReadU16At(load, |pre|) == Some((req.keepalive, |pre| + 2))
    ensures ReadStrAt(load, |pre| + 2) == Some((req.clientId, p2))
    ensures p2 == |pre + U16Bytes(req.keepalive) + Str(req.clientId)|
  {
    var ka := U16Bytes(req.keepalive);
    Assoc(pre, ka, Str(req.clientId) + rest);
    assert load[|pre|] == ka[0] && load[|pre| + 1] == ka[1];
    Be16OfU16Bytes(req.keepalive);
    Assoc(pre + ka, Str(req.clientId), rest);
    StrRoundTrip(pre + ka, req.clientId, rest);
    p2 := |pre| + 4 + |req.clientId|;
  }

  /** The will and credential fields, read back from the end of `pre`; `p3`
      is where the will fields end. */
  lemma OptionalFieldsRoundTrip(load: seq<uint8>, pre: seq<uint8>, req: ConnectRequest) returns (p3: nat)
    requires WireFields(req) && load == pre + (WillField(req) + CredentialsField(req))
    ensures ReadWill(load, |pre|, req.flags) == Some((req.willTopic, req.willMessage, p3))
    ensures ReadCredentials(load, p3, req.flags, CONNECT_FLAG_PASSWORD) == Some((req.username, req.password))
  {
    var w, c := WillField(req), CredentialsField(req);
    p3 := WillRoundTrip(load, pre, req, c);
    Assoc(pre, w, c);
    CredentialsRoundTrip(load, pre + w, p3, req);
  }

  /** The four fields after the connect flags, each read back where the
      previous one ends. */
  lemma TailPieces(pre: seq<uint8>, req: ConnectRequest) returns (p2: nat, p3: nat)
    requires WireFields(req)
    ensures var load := pre + EncodeConnectTail(req);
      ReadU16At(load, |pre|) == Some((req.keepalive, |pre| + 2)) &&
      ReadStrAt(load, |pre| + 2) == Some((req.clientId, p2)) &&
      ReadWill(load, p2, req.flags) == Some((req.willTopic, req.willMessage, p3)) &&
      ReadCredentials(load, p3, req.flags, CONNECT_FLAG_PASSWORD) == Some((req.username, req.password))
  {
    var ka, id, w, c := U16Bytes(req.keepalive), Str(req.clientId), WillField(req), CredentialsField(req);
    var load := pre + EncodeConnectTail(req);
    p2 := HeadRoundTrip(load, pre, req, w + c);
    Assoc(pre, ka, id + (w + c));
    Assoc(pre + ka, id, w + c);
    var q2 := pre + ka + id;
    assert p2 == |q2|;
    p3 := OptionalFieldsRoundTrip(load, q2, req);
    assert ReadWill(load, |q2|, req.flags) == ReadWill(load, p2, req.flags);
  }

  lemma ConnectTailRoundTrip(pre: seq<uint8>, req: ConnectRequest)
    requires WireFields(req)
    ensures ReadConnectTail(pre + EncodeConnectTail(req), |pre|, req.level, req.flags, CONNECT_FLAG_PASSWORD) == Some(req)
  {
    var p2, p3 := TailPieces(pre, req);
    TailFromPieces(pre + EncodeConnectTail(req), |pre|, req.level, req.flags, CONNECT_FLAG_PASSWORD, req.keepalive,
                   req.clientId, p2, req.willTopic, req.willMessage, p3, req.username, req.password);
  }

  /** Which flag gates the password does not matter when neither flag is set. */
  lemma PasswordGateIrrelevant(load: seq<uint8>, pos: nat, level: uint8, flags: uint8)
    requires !HasFlag(flags, CONNECT_FLAG_USERNAME) && !HasFlag(flags, CONNECT_FLAG_PASSWORD)
    ensures ReadConnectTail(load, pos, level, flags, CONNECT_FLAG_USERNAME) ==
            ReadConnectTail(load, pos, level, flags, CONNECT_FLAG_PASSWORD)
  {
  }

  /** A sendable CONNECT payload with the reserved flag clear whose level
      passes the (signed or unsigned) check is accepted with exactly the
      fields it was built from. */
  lemma ConnectRoundTripWith(req: ConnectRequest, signedLevel: bool)
    requires WireFields(req) && !HasFlag(req.flags, CONNECT_FLAG_RESERVED)
    requires (if signedLevel then AsInt8(req.level) else req.level) <= PROTOCOL_MAX_LEVEL
    ensures ParseConnectWith(EncodeConnect(req), signedLevel, CONNECT_FLAG_PASSWORD) == Accepted(req)
    ensures ReadStrAt(EncodeConnect(req), 0) == Some((PROTOCOL_NAME, 6))
    ensures 8 <= |EncodeConnect(req)| && EncodeConnect(req)[6] == req.level && EncodeConnect(req)[7] == req.flags
    ensures ReadConnectTail(EncodeConnect(req), 8, req.level, req.flags, CONNECT_FLAG_PASSWORD) == Some(req)
  {
    var pre := Str(PROTOCOL_NAME) + [req.level, req.flags];
    var load := EncodeConnect(req);
    assert load == [] + Str(PROTOCOL_NAME) + ([req.level, req.flags] + EncodeConnectTail(req));
    StrRoundTrip([], PROTOCOL_NAME, [req.level, req.flags] + EncodeConnectTail(req));
    assert load[6] == req.level && load[7] == req.flags;
    assert load == pre + EncodeConnectTail(req);
    ConnectTailRoundTrip(pre, req);
    ParseFromPieces(load, signedLevel, CONNECT_FLAG_PASSWORD, req);
  }

  /** A well-formed CONNECT payload is accepted with exactly the fields it was
      built from. */
  lemma ConnectRoundTrip(req: ConnectRequest)
    requires WellFormedConnect(req)
    ensures ParseConnect(EncodeConnect(req)) == Accepted(req)
  {
    ConnectRoundTripWith(req, false);
  }

  /** Every level byte above 4 is answered with return code 1. */
  lemma LevelAboveMaxRejected(load: seq<uint8>)
    requires ReadStrAt(load, 0) == Some((PROTOCOL_NAME, 6)) && 6 < |load| && load[6] > PROTOCOL_MAX_LEVEL
    ensures ParseConnect(load) == LevelRejected
  {
  }

  /** The name field "MQTT" at the start of a payload. */
  lemma NameAtStart(load: seq<uint8>)
    requires 6 <= |load| && load[..6] == [0, 4] + PROTOCOL_NAME
    ensures ReadStrAt(load, 0) == Some((PROTOCOL_NAME, 6))
  {
    assert load[2..6] == PROTOCOL_NAME;
    CStrOfNulFree(PROTOCOL_NAME);
  }

  /** As written, a level byte of 0x80 is the INT8 -128, passes the check and
      the connection is accepted; the unsigned check answers return code 1. */
  lemma SignedLevelAccepted()
    ensures var req := ConnectRequest(0x80, 0, 0, [], None, None, None, None);
      ParseConnectAsWritten(EncodeConnect(req)) == Accepted(req) &&
      ParseConnect(EncodeConnect(req)) == LevelRejected
  {
    var req := ConnectRequest(0x80, 0, 0, [], None, None, None, None);
    assert !HasFlag(0, CONNECT_FLAG_WILL_FLAG) && !HasFlag(0, CONNECT_FLAG_USERNAME);
    assert !HasFlag(0, CONNECT_FLAG_PASSWORD) && !HasFlag(0, CONNECT_FLAG_RESERVED);
    assert AsInt8(0x80) <= PROTOCOL_MAX_LEVEL;
    var load := EncodeConnect(req);
    ConnectRoundTripWith(req, true);
    PasswordGateIrrelevant(load, 8, 0x80, 0);
    ParseFromPieces(load, true, CONNECT_FLAG_USERNAME, req);
    LevelAboveMaxRejected(load);
  }

  /** As written, a CONNECT with a username and no password (flags 0x40,
      allowed by MQTT 3.1.1 section 3.1.2.9) makes handle_connect read a
      password past the end of the payload; with the password flag it is
      accepted. */
  lemma UsernameWithoutPasswordOverreads()
    ensures ParseConnectAsWritten([0, 4, 0x4D, 0x51, 0x54, 0x54, 4, 0x40, 0, 0, 0, 0, 0, 0]) == Refused
    ensures ParseConnect([0, 4, 0x4D, 0x51, 0x54, 0x54, 4, 0x40, 0, 0, 0, 0, 0, 0]) ==
      Accepted(ConnectRequest(4, 0x40, 0, [], None, None, Some([]), None))
  {
    var load: seq<uint8> := [0, 4, 0x4D, 0x51, 0x54, 0x54, 4, 0x40, 0, 0, 0, 0, 0, 0];
    var req := ConnectRequest(4, 0x40, 0, [], None, None, Some([]), None);
    UsernameOnlyFields(load);
    UsernameOnlyCredentials(load);
    TailFromPieces(load, 8, 4, 0x40, CONNECT_FLAG_PASSWORD, 0, [], 12, None, None, 12, Some([]), None);
    ParseFromPieces(load, false, CONNECT_FLAG_PASSWORD, req);
    TailStopsAtCredentials(load, 8, 4, 0x40, CONNECT_FLAG_USERNAME, 0, [], 12, None, None, 12);
    ParseRefusedAtTail(load, true, CONNECT_FLAG_USERNAME);
  }

  /** The name, level, flags, keep-alive, client id and will of that payload. */
  lemma UsernameOnlyFields(load: seq<uint8>)
    requires load == [0, 4, 0x4D, 0x51, 0x54, 0x54, 4, 0x40, 0, 0, 0, 0, 0, 0]
    ensures ReadStrAt(load, 0) == Some((PROTOCOL_NAME, 6)) && load[6] == 4 && load[7] == 0x40
    ensures HasFlag(0x40, CONNECT_FLAG_USERNAME) && !HasFlag(0x40, CONNECT_FLAG_WILL_FLAG)
    ensures !HasFlag(0x40, CONNECT_FLAG_PASSWORD) && !HasFlag(0x40, CONNECT_FLAG_RESERVED)
    ensures ReadU16At(load, 8) == Some((0, 10)) && ReadStrAt(load, 10) == Some(([], 12))
    ensures ReadWill(load, 12, 0x40) == Some((None, None, 12))
  {
    UsernameOnlyName(load);
    UsernameOnlyFlags();
    UsernameOnlyIds(load);
  }

  lemma UsernameOnlyName(load: seq<uint8>)
    requires load == [0, 4, 0x4D, 0x51, 0x54, 0x54, 4, 0x40, 0, 0, 0, 0, 0, 0]
    ensures ReadStrAt(load, 0) == Some((PROTOCOL_NAME, 6)) && load[6] == 4 && load[7] == 0x40
  {
    NameAtStart(load);
  }

  lemma UsernameOnlyIds(load: seq<uint8>)
    requires load == [0, 4, 0x4D, 0x51, 0x54, 0x54, 4, 0x40, 0, 0, 0, 0, 0, 0]
    ensures ReadU16At(load, 8) == Some((0, 10)) && ReadStrAt(load, 10) == Some(([], 12))
    ensures ReadWill(load, 12, 0x40) == Some((None, None, 12))
  {
    EmptyStrAt(load, 8);
    EmptyStrAt(load, 10);
    UsernameOnlyFlags();
    NoWillAt(load, 12, 0x40);
  }

  lemma NoWillAt(load: seq<uint8>, pos: nat, flags: uint8)
    requires pos <= |load| && !HasFlag(flags, CONNECT_FLAG_WILL_FLAG)
    ensures ReadWill(load, pos, flags) == Some((None, None, pos))
  {
  }

  lemma UsernameOnlyFlags()
    ensures HasFlag(0x40, CONNECT_FLAG_USERNAME) && !HasFlag(0x40, CONNECT_FLAG_WILL_FLAG)
    ensures !HasFlag(0x40, CONNECT_FLAG_PASSWORD) && !HasFlag(0x40, CONNECT_FLAG_RESERVED)
  {
  }

  /** Two zero bytes at `pos` are the empty string. */
  lemma EmptyStrAt(load: seq<uint8>, pos: nat)
    requires pos + 2 <= |load| && load[pos] == 0 && load[pos + 1] == 0
    ensures ReadU16At(load, pos) == Some((0, pos + 2)) && ReadStrAt(load, pos) == Some(([], pos + 2))
  {
    assert load[pos + 2..pos + 2] == [];
  }

  /** Its credentials: a username and no password under the password flag; a
      read past the end under the username flag. */
  lemma UsernameOnlyCredentials(load: seq<uint8>)
    requires load == [0, 4, 0x4D, 0x51, 0x54, 0x54, 4, 0x40, 0, 0, 0, 0, 0, 0]
    ensures ReadCredentials(load, 12, 0x40, CONNECT_FLAG_PASSWORD) == Some((Some([]), None))
    ensures ReadCredentials(load, 12, 0x40, CONNECT_FLAG_USERNAME) == None
  {
    EmptyStrAt(load, 12);
    UsernameOnlyFlags();
    assert ReadOptStr(load, 12, true) == Some((Some([]), 14));
    assert ReadOptStr(load, 14, false) == Some((None, 14));
    assert ReadOptStr(load, 14, true) == None;
  }

  /** ReadConnectTail fails when only the credentials fail. */
  lemma TailStopsAtCredentials(load: seq<uint8>, pos: nat, level: uint8, flags: uint8, passwordFlag: uint8,
                               ka: uint16, id: seq<uint8>, p2: nat, wt: Option<seq<uint8>>, wm: Option<seq<uint8>>,
                               p3: nat)
    requires ReadU16At(load, pos) == Some((ka, pos + 2))
    requires ReadStrAt(load, pos + 2) == Some((id, p2))
    requires ReadWill(load, p2, flags) == Some((wt, wm, p3))
    requires ReadCredentials(load, p3, flags, passwordFlag) == None
    ensures ReadConnectTail(load, pos, level, flags, passwordFlag) == None
  {
  }

  /** ParseConnectWith refuses a payload whose name, level and flags pass and
      whose remaining fields do not read. */
  lemma ParseRefusedAtTail(load: seq<uint8>, signedLevel: bool, passwordFlag: uint8)
    requires ReadStrAt(load, 0) == Some((PROTOCOL_NAME, 6)) && 8 <= |load|
    requires (if signedLevel then AsInt8(load[6]) else load[6]) <= PROTOCOL_MAX_LEVEL
    requires !HasFlag(load[7], CONNECT_FLAG_RESERVED)
    requires ReadConnectTail(load, 8, load[6], load[7], passwordFlag) == None
    ensures ParseConnectWith(load, signedLevel, passwordFlag) == Refused
  {
  }

  /** An accepted CONNECT gives the session its client id and the state
      CONNECTING, stores the credentials when either is present, and changes
      nothing else: not its queue, not any other session. */
  lemma ConnectedEffect(byFd: map<int, Ref>, heap: map<Ref, Client>, fd: int, req: ConnectRequest)
    requires fd in byFd && byFd[fd] in heap
    ensures var h' := Connected(byFd, heap, fd, req); var c := heap[byFd[fd]];
      h'.Keys == heap.Keys &&
      h'[byFd[fd]] == c.(clientId := Some(req.clientId), state := Connecting,
                         username := if req.username.Some? || req.password.Some? then req.username else c.username,
                         password := if req.username.Some? || req.password.Some? then req.password else c.password) &&
      forall r :: r in heap && r != byFd[fd] ==> h'[r] == heap[r]
  {
  }

  /** The refusals of handle_connect: a payload too short for the name, a
      name other than "MQTT" or a reserved flag bit closes the client with no
      reply; a level above 4 is answered with CONNACK code 1 and the state
      is left as it was. */
  lemma ConnectFailurePaths(w: World, byFd: map<int, Ref>, fd: int, load: seq<uint8>)
    ensures ReadStrAt(load, 0).None? ==> ConnectSpec(w, byFd, fd, load) == Outcome(w, HANDLE_RET_CLOSE_CLIENT, None)
    ensures ReadStrAt(load, 0).Some? && ReadStrAt(load, 0).value.0 != PROTOCOL_NAME ==>
      ConnectSpec(w, byFd, fd, load) == Outcome(w, HANDLE_RET_CLOSE_CLIENT, None)
    ensures (ReadStrAt(load, 0) == Some((PROTOCOL_NAME, 6)) && 8 <= |load| && load[6] <= PROTOCOL_MAX_LEVEL &&
             HasFlag(load[7], CONNECT_FLAG_RESERVED)) ==>
      ConnectSpec(w, byFd, fd, load) == Outcome(w, HANDLE_RET_CLOSE_CLIENT, None)
    ensures ReadStrAt(load, 0) == Some((PROTOCOL_NAME, 6)) && 6 < |load| && load[6] > PROTOCOL_MAX_LEVEL ==>
      ConnectSpec(w, byFd, fd, load) == Outcome(w, SUCESS, Some(ConnackFrame(0, CONNECT_RET_INVALID_PROTOCOL_LEVEL))) &&
      EncodeFrame(ConnackFrame(0, CONNECT_RET_INVALID_PROTOCOL_LEVEL)) == [0x20, 2, 0, 1]
  {
    ConnackBytes(0, CONNECT_RET_INVALID_PROTOCOL_LEVEL);
  }

  /** A well-formed CONNECT is answered with the CONNACK bytes 0x20 2 0 0;
      the session gets the client id and the state CONNECTING, and nothing
      else in the broker changes. */
  lemma ConnectAccepted(w: World, byFd: map<int, Ref>, fd: int, req: ConnectRequest)
    requires WellFormedConnect(req) && fd in byFd && byFd[fd] in w.heap
    ensures var o := ConnectSpec(w, byFd, fd, EncodeConnect(req)); var c := w.heap[byFd[fd]];
      o.ret == SUCESS && o.reply.Some? && EncodeFrame(o.reply.value) == [0x20, 2, 0, CONNECT_RET_OK] &&
      o.w.records == w.records && o.w.nodes == w.nodes && o.w.nextHandle == w.nextHandle &&
      o.w.heap.Keys == w.heap.Keys && o.w.heap[byFd[fd]].state == Connecting &&
      o.w.heap[byFd[fd]].clientId == Some(req.clientId) && o.w.heap[byFd[fd]].queue == c.queue &&
      (forall r :: r in w.heap && r != byFd[fd] ==> o.w.heap[r] == w.heap[r])
  {
    ConnectRoundTrip(req);
    ConnackBytes(0, CONNECT_RET_OK);
    ConnectedEffect(byFd, w.heap, fd, req);
  }

  // ---------------------------------------------------------------- PUBLISH

  /** The PUBLISH flag bits of the fixed header (packet_handle.h). */
  function PublishQos(flags: uint8): int { (flags / 2) % 4 }
  function PublishDup(flags: uint8): uint8 { (flags / 8) % 2 }
  function PublishRetain(flags: uint8): uint8 { flags % 2 }

  /** The packet-id field, present for QoS 1 and 2 only. */
  function IdField(qos: int, id: uint16): (r: seq<uint8>)
    ensures |r| == if qos == QOS1 || qos == QOS2 then 2 else 0
  {
    if qos == QOS1 || qos == QOS2 then U16Bytes(id) else []
  }

  /** The packet id read after the topic: for QoS 1 and 2 only, else 0. */
  function ReadIdAt(load: seq<uint8>, pos: nat, qos: int): (r: Option<(uint16, nat)>)
    ensures r.Some? ==> pos <= r.value.1 <= |load|
  {
    if qos == QOS1 || qos == QOS2 then ReadU16At(load, pos)
    else if pos <= |load| then Some((0, pos)) else None
  }

  /** handle_publish's parse: QoS 3 is refused before anything is read; the
      topic, the packet id (QoS 1 and 2 only) and the rest of the payload as
      the content. None closes the client. */
  function ParsePublish(flags: uint8, load: seq<uint8>): Option<TopicMessage>
  {
    var qos := PublishQos(flags);
    if qos > QOS2 then None
    else
      match ReadStrAt(load, 0)
      case None => None
      case Some((topic, p1)) =>
        match ReadIdAt(load, p1, qos)
        case None => None
        case Some((id, p2)) =>
          match ReadRemainStrAt(load, p2)
          case None => None
          case Some((content, _)) => Some(TopicMessage(id, topic, content, qos, PublishDup(flags), PublishRetain(flags)))
  }

  method ReadPublish(p: Packet) returns (m: Option<TopicMessage>)
    requires p.loadPos == 0
    modifies p`loadPos
    ensures m == ParsePublish(p.flags, p.load[..])
  {
    var qos := (p.flags / 2) % 4;
    if qos > QOS2 {
      return None;
    }
    var topic := p.ReadStr();
    if topic.None? {
      return None;
    }
    var id: uint16 := 0;
    if qos == QOS1 || qos == QOS2 {
      var x := p.ReadUint16();
      if x.None? {
        return None;
      }
      id := x.value;
    } else if p.loadPos > p.load.Length {
      return None;
    }
    var content := p.ReadRemainStr();
    if content.None? {
      return None;
    }
    return Some(TopicMessage(id, topic.value, content.value, qos, (p.flags / 8) % 2, p.flags % 2));
  }

  /** handle_publish once the packet is parsed. The message is stored under a
      fresh handle at count 0. QoS 0 fans out; QoS 1 fans out and answers
      PUBACK; QoS 2 does not fan out but puts a WAIT_FOR_PUBREL entry first in
      the publisher's own queue, takes one reference for it and answers PUBREC. */
  function PublishAccepted(w: World, r: Ref, m: TopicMessage): Outcome
  {
    var h := w.nextHandle;
    var stored := w.records[h := Record(m, 0)];
    if m.qos == QOS2 then
      var d := Delivery(WaitForPubrel, QOS2, MdIn, m.packetId, h);
      Outcome(World(Enqueued(w.heap, r, d), Referenced(stored, h), h + 1, w.nodes), SUCESS,
              Some(IdFrame(PUBREC, m.packetId)))
    else
      var st := Published(Stores(w.heap, stored), w.nodes, h);
      Outcome(World(st.heap, st.records, h + 1, w.nodes), SUCESS,
              if m.qos == QOS1 then Some(IdFrame(PUBACK, m.packetId)) else None)
  }

  /** handle_publish: a packet that does not parse closes the client. */
  function PublishSpec(w: World, r: Ref, flags: uint8, load: seq<uint8>): Outcome
  {
    match ParsePublish(flags, load)
    case None => Outcome(w, HANDLE_RET_CLOSE_CLIENT, None)
    case Some(m) => PublishAccepted(w, r, m)
  }

  method StorePublish(tbl: Table, reg: Registry, idx: Index, r: Ref, msg: TopicMessage) returns (ret: int, out: Packet?)
    requires tbl.Valid() && reg.Valid()
    modifies tbl`heap, reg
    ensures out != null ==> fresh(out) && fresh(out.load)
    ensures var o := PublishAccepted(old(Now(tbl, reg, idx)), r, msg);
      Now(tbl, reg, idx) == o.w && ret == o.ret && Replied(out, o.reply)
    ensures tbl.Valid() && reg.Valid()
  {
    ghost var w := Now(tbl, reg, idx);
    var h := reg.Insert(msg);
    ret, out := SUCESS, null;
    ghost var stored := Stores(tbl.heap, reg.records);
    assert stored.records == w.records[h := Record(msg, 0)];
    if msg.qos == QOS2 {
      tbl.Enqueue(r, Delivery(WaitForPubrel, QOS2, MdIn, msg.packetId, h));
      reg.Reference(h);
      out := BuildPacketWithPacketId(msg.packetId, PUBREC);
    } else {
      if msg.qos == QOS1 {
        out := BuildPacketWithPacketId(msg.packetId, PUBACK);
      }
      PublishStored(tbl, reg, idx, h);
    }
  }

  /** The fan-out of a message just stored; the store keeps its handles. */
  method PublishStored(tbl: Table, reg: Registry, idx: Index, h: Handle)
    requires tbl.Valid() && reg.Valid()
    modifies tbl`heap, reg`records
    ensures Stores(tbl.heap, reg.records) == Published(old(Stores(tbl.heap, reg.records)), idx.nodes, h)
    ensures tbl.Valid() && reg.Valid()
  {
    ghost var st0 := Stores(tbl.heap, reg.records);
    idx.Pub(tbl, reg, h);
    PublishedExtends(st0, idx.nodes, h);
  }

  method HandlePublish(tbl: Table, reg: Registry, idx: Index, r: Ref, p: Packet) returns (ret: int, out: Packet?)
    requires tbl.Valid() && reg.Valid() && p.loadPos == 0
    modifies tbl`heap, reg, p`loadPos
    ensures out != null ==> fresh(out) && fresh(out.load)
    ensures var o := PublishSpec(old(Now(tbl, reg, idx)), r, p.flags, p.load[..]);
      Now(tbl, reg, idx) == o.w && ret == o.ret && Replied(out, o.reply)
    ensures tbl.Valid() && reg.Valid()
  {
    var m := ReadPublish(p);
    if m.None? {
      return HANDLE_RET_CLOSE_CLIENT, null;
    }
    ret, out := StorePublish(tbl, reg, idx, r, m.value);
  }

  // ------------------------------------------------- PUBLISH, what it means

  /** The flags byte a client sends for `m`: DUP, QoS and RETAIN in place. */
  function PublishFlags(m: TopicMessage): uint8
    requires m.qos <= QOS2 && m.dup <= 1 && m.retain <= 1
  {
    m.dup * 8 + m.qos * 2 + m.retain
  }

  /** A PUBLISH payload as MQTT 3.1.1 lays it out (section 3.3.2, 3.3.3):
      the topic, the packet id for QoS 1 and 2, then the application message. */
  function EncodePublish(m: TopicMessage, qos: int, id: uint16): seq<uint8>
    requires WireString(m.topic)
  {
    Str(m.topic) + (IdField(qos, id) + m.content)
  }

  lemma ParsePublishFromPieces(flags: uint8, load: seq<uint8>, topic: seq<uint8>, p1: nat, id: uint16, p2: nat, content: seq<uint8>, p3: nat)
    requires PublishQos(flags) <= QOS2
    requires ReadStrAt(load, 0) == Some((topic, p1))
    requires ReadIdAt(load, p1, PublishQos(flags)) == Some((id, p2))
    requires ReadRemainStrAt(load, p2) == Some((content, p3))
    ensures ParsePublish(flags, load) == Some(TopicMessage(id, topic, content, PublishQos(flags), PublishDup(flags), PublishRetain(flags)))
  {
  }

  lemma IdFieldAt(load: seq<uint8>, pre: seq<uint8>, pos: nat, qos: int, id: uint16, rest: seq<uint8>) returns (p: nat)
    requires load == pre + (IdField(qos, id) + rest) && pos == |pre|
    ensures ReadIdAt(load, pos, qos) == Some((if qos == QOS1 || qos == QOS2 then id else 0, p))
    ensures p == pos + |IdField(qos, id)|
  {
    p := pos + |IdField(qos, id)|;
    if qos == QOS1 || qos == QOS2 {
      assert load[pos] == U16Bytes(id)[0] && load[pos + 1] == U16Bytes(id)[1];
      Be16OfU16Bytes(id);
    }
  }

  lemma RemainAt(load: seq<uint8>, pre: seq<uint8>, pos: nat, s: seq<uint8>)
    requires load == pre + s && pos == |pre| && WireString(s)
    ensures ReadRemainStrAt(load, pos) == Some((s, |load|))
  {
    assert load[pos..pos + |s|] == s;
    CStrOfNulFree(s);
  }

  /** Whatever the flags, a payload laid out as above parses back to its
      topic, its content and, for QoS 1 and 2, its packet id; DUP and RETAIN
      come from the flags. */
  lemma PublishPayloadParses(flags: uint8, m: TopicMessage, id: uint16)
    requires PublishQos(flags) <= QOS2 && WireString(m.topic) && WireString(m.content)
    ensures var qos := PublishQos(flags);
      ParsePublish(flags, EncodePublish(m, qos, id)) ==
      Some(TopicMessage(if qos == QOS0 then 0 else id, m.topic, m.content, qos, PublishDup(flags), PublishRetain(flags)))
  {
    var qos := PublishQos(flags);
    var load := EncodePublish(m, qos, id);
    var t := Str(m.topic);
    var rest := IdField(qos, id) + m.content;
    assert load == [] + t + rest;
    StrRoundTrip([], m.topic, rest);
    var p1 := 2 + |m.topic|;
    var p2 := IdFieldAt(load, t, p1, qos, id, m.content);
    Assoc(t, IdField(qos, id), m.content);
    RemainAt(load, t + IdField(qos, id), p2, m.content);
    ParsePublishFromPieces(flags, load, m.topic, p1, if qos == QOS0 then 0 else id, p2, m.content, |load|);
  }

  /** A well-formed client PUBLISH: QoS at most 2, one-bit DUP and RETAIN,
      carriable strings, and packet id 0 when QoS 0 carries none. */
  predicate WellFormedPublish(m: TopicMessage)
  {
    m.qos <= QOS2 && m.dup <= 1 && m.retain <= 1 && WireString(m.topic) && WireString(m.content) &&
    (m.qos == QOS0 ==> m.packetId == 0)
  }

  /** handle_publish reads back exactly the message a client encodes. */
  lemma PublishRoundTrip(m: TopicMessage)
    requires WellFormedPublish(m)
    ensures ParsePublish(PublishFlags(m), EncodePublish(m, m.qos, m.packetId)) == Some(m)
  {
    var f := PublishFlags(m);
    assert f / 2 == m.dup * 4 + m.qos;
    assert f / 8 == m.dup;
    assert PublishQos(f) == m.qos && PublishDup(f) == m.dup && PublishRetain(f) == m.retain;
    PublishPayloadParses(f, m, m.packetId);
    assert TopicMessage(if m.qos == QOS0 then 0 else m.packetId, m.topic, m.content, m.qos, m.dup, m.retain) == m;
  }

  /** A QoS 3 PUBLISH closes the client whatever it carries, before anything
      is stored. */
  lemma PublishQos3Closes(w: World, r: Ref, flags: uint8, load: seq<uint8>)
    requires PublishQos(flags) == 3
    ensures PublishSpec(w, r, flags, load) == Outcome(w, HANDLE_RET_CLOSE_CLIENT, None)
  {
  }

  /** QoS 0 and 1 store the message and fan it out: the store gains the
      record, and any queue grows only at its head. QoS 1 answers PUBACK
      with the packet id, QoS 0 not at all. QoS 2 only prepends one
      WAIT_FOR_PUBREL entry to the publisher's queue, holding the single
      reference of the new record, and answers PUBREC. */
  lemma PublishEffect(w: World, r: Ref, m: TopicMessage)
    requires r in w.heap && m.qos <= QOS2 && forall h :: h in w.records ==> h < w.nextHandle
    ensures var o := PublishAccepted(w, r, m); var h := w.nextHandle;
      o.ret == SUCESS && o.w.nodes == w.nodes && o.w.nextHandle == h + 1 &&
      h in o.w.records && o.w.records[h].msg == m &&
      (m.qos == QOS2 ==>
        o.w.heap == w.heap[r := w.heap[r].(queue := [Delivery(WaitForPubrel, QOS2, MdIn, m.packetId, h)] + w.heap[r].queue)] &&
        o.w.records == w.records[h := Record(m, 1)] && o.reply == Some(IdFrame(PUBREC, m.packetId))) &&
      (m.qos != QOS2 ==>
        Extends(Stores(w.heap, w.records[h := Record(m, 0)]), Stores(o.w.heap, o.w.records)) &&
        o.reply == (if m.qos == QOS1 then Some(IdFrame(PUBACK, m.packetId)) else None))
  {
    var h := w.nextHandle;
    if m.qos != QOS2 {
      PublishedExtends(Stores(w.heap, w.records[h := Record(m, 0)]), w.nodes, h);
    }
  }

  /** A QoS 0 or 1 message whose candidate filters have no subscribers stays
      in the store at count 0, where nothing will ever release it, and no
      queue changes. */
  lemma PublishUnmatchedKeepsRecord(w: World, r: Ref, m: TopicMessage)
    requires m.qos <= QOS1
    requires forall k :: k in Lookups(w.nodes, Tokens(CStr(m.topic)), []) ==> !Live(w.nodes, k)
    ensures var o := PublishAccepted(w, r, m);
      o.w.heap == w.heap && o.w.records == w.records[w.nextHandle := Record(m, 0)]
  {
    var h := w.nextHandle;
    PublishedUnmatched(Stores(w.heap, w.records[h := Record(m, 0)]), w.nodes, h);
  }

  // ----------------------------------------------------- outbound PUBLISH

  /** write_str of a C string: strlen kept in a UINT16, then that many bytes. */
  function WireStr(s: seq<uint8>): (r: seq<uint8>)
    ensures |r| == 2 + |CStr(s)| % 0x1_0000 <= 2 + |CStr(s)|
    ensures WireString(s) ==> r == Str(s)
  {
    var t := CStr(s);
    var n := |t| % 0x1_0000;
    assert NUL !in s ==> CStr(s) == s by {
      if NUL !in s {
        CStrOfNulFree(s);
      }
    }
    U16Bytes(n) + t[..n]
  }

  /** write_remain_str of a C string: strlen kept in a UINT16 bytes, no prefix. */
  function WireRemainStr(s: seq<uint8>): (r: seq<uint8>)
    ensures |r| == |CStr(s)| % 0x1_0000 <= |CStr(s)|
    ensures WireString(s) ==> r == s
  {
    var t := CStr(s);
    assert NUL !in s ==> CStr(s) == s by {
      if NUL !in s {
        CStrOfNulFree(s);
      }
    }
    t[..|t| % 0x1_0000]
  }

  /** The PUBLISH send_publish builds for message `m` on an entry of QoS
      `qos`: the header flags carry only the QoS (no DUP, no RETAIN), the
      remaining length counts strlen of topic and content, and the payload is
      the topic, the packet id for QoS 1 and 2, then the content. */
  function PublishFrame(m: TopicMessage, qos: uint8, id: uint16): Frame
    requires qos <= QOS2
  {
    Frame(PUBLISH, qos * 2, 2 + |CStr(m.topic)| + |CStr(m.content)| + |IdField(qos, id)|,
          WireStr(m.topic) + (IdField(qos, id) + WireRemainStr(m.content)))
  }

  /** write_str of a C string, appended at the cursor. */
  method AppendStr(p: Packet, s: seq<uint8>)
    requires p.loadPos + |WireStr(s)| <= p.load.Length
    modifies p`loadPos, p.load
    ensures p.loadPos == old(p.loadPos) + |WireStr(s)|
    ensures p.load[..p.loadPos] == old(p.load[..p.loadPos]) + WireStr(s)
  {
    var t := CStr(s);
    ghost var before := p.load[..p.loadPos];
    p.WriteStr(t[..|t| % 0x1_0000]);
    assert p.load[..p.loadPos] == p.load[..old(p.loadPos)] + p.load[old(p.loadPos)..p.loadPos];
  }

  /** write_remain_str of a C string, appended at the cursor. */
  method AppendRemainStr(p: Packet, s: seq<uint8>)
    requires p.loadPos + |WireRemainStr(s)| <= p.load.Length
    modifies p`loadPos, p.load
    ensures p.loadPos == old(p.loadPos) + |WireRemainStr(s)|
    ensures p.load[..p.loadPos] == old(p.load[..p.loadPos]) + WireRemainStr(s)
  {
    var t := CStr(s);
    p.WriteRemainStr(t[..|t| % 0x1_0000]);
    assert p.load[..p.loadPos] == p.load[..old(p.loadPos)] + p.load[old(p.loadPos)..p.loadPos];
  }

  /** write_uint16 appended at the cursor. */
  method AppendUint16(p: Packet, v: uint16)
    requires p.loadPos + 2 <= p.load.Length
    modifies p`loadPos, p.load
    ensures p.loadPos == old(p.loadPos) + 2
    ensures p.load[..p.loadPos] == old(p.load[..p.loadPos]) + U16Bytes(v)
  {
    ghost var before := p.load[..p.loadPos];
    p.WriteUint16(v);
    assert p.load[..p.loadPos] == before + U16Bytes(v);
  }

  /** The payload send_publish writes after allocating the packet. */
  method WritePublishPayload(p: Packet, m: TopicMessage, qos: uint8, id: uint16)
    requires p.loadPos == 0
    requires |WireStr(m.topic)| + |IdField(qos, id)| + |WireRemainStr(m.content)| <= p.load.Length
    modifies p`loadPos, p.load
    ensures p.loadPos <= p.load.Length
    ensures p.load[..p.loadPos] == WireStr(m.topic) + (IdField(qos, id) + WireRemainStr(m.content))
  {
    ghost var topic, idField, content := WireStr(m.topic), IdField(qos, id), WireRemainStr(m.content);
    assert p.load[..p.loadPos] == [];
    AppendStr(p, m.topic);
    assert p.load[..p.loadPos] == topic;
    if qos == QOS1 || qos == QOS2 {
      AppendUint16(p, id);
    } else {
      assert topic + idField == topic;
    }
    ghost var head := p.load[..p.loadPos];
    assert head == topic + idField;
    AppendRemainStr(p, m.content);
    assert p.load[..p.loadPos] == head + content;
    Assoc(topic, idField, content);
  }

  method BuildPublish(m: TopicMessage, qos: uint8, id: uint16) returns (p: Packet)
    requires qos <= QOS2
    ensures fresh(p) && fresh(p.load)
    ensures Replied(p, Some(PublishFrame(m, qos, id)))
  {
    var len := 2 + |CStr(m.topic)| + |CStr(m.content)|;
    if qos == QOS1 || qos == QOS2 {
      len := len + 2;
    }
    p := new Packet.Outbound(PUBLISH, qos * 2, len, len);
    WritePublishPayload(p, m, qos, id);
    assert p.loadPos <= p.remainLen == PublishFrame(m, qos, id).remainLen;
    assert p.Abs() == PublishFrame(m, qos, id);
  }

  /** The frame send_publish writes fills its remaining length exactly, and
      a subscriber reads back the topic, the content, the QoS of the entry and
      the packet id it was sent under. */
  lemma PublishFrameReadsBack(m: TopicMessage, qos: uint8, id: uint16)
    requires qos <= QOS2 && WireString(m.topic) && WireString(m.content)
    ensures var f := PublishFrame(m, qos, id);
      |f.payload| == f.remainLen &&
      ParsePublish(f.flags, f.payload) == Some(TopicMessage(if qos == QOS0 then 0 else id, m.topic, m.content, qos, 0, 0))
  {
    CStrOfNulFree(m.topic);
    CStrOfNulFree(m.content);
    var f := PublishFrame(m, qos, id);
    assert f.payload == EncodePublish(m, qos, id);
    assert PublishQos(f.flags) == qos && PublishDup(f.flags) == 0 && PublishRetain(f.flags) == 0;
    PublishPayloadParses(f.flags, m, id);
  }

  // ----------------------------------------------------- draining a queue

  /** send_publish for entry `i` of client `r`'s queue. A QoS 0 entry is done
      once written: its reference is released and the caller is told to remove
      it (REMOVE_MSG). A QoS 1 or 2 entry takes the client's packet_id_source
      as its packet id, the source moves on with UINT16 wrap-around, and the
      entry, now MD_IN, waits for PUBACK or PUBREC (KEEP_MSG). */
  function SendPublishSpec(w: World, r: Ref, i: nat): Outcome
    requires r in w.heap && i < |w.heap[r].queue|
    requires w.heap[r].queue[i].qos <= QOS2 && w.heap[r].queue[i].msg in w.records
  {
    var c := w.heap[r];
    var d := c.queue[i];
    var m := w.records[d.msg].msg;
    if d.qos == QOS0 then
      Outcome(w.(records := Released(w.records, d.msg)), HANDLE_RET_REMOVE_MSG, Some(PublishFrame(m, QOS0, 0)))
    else
      var id := c.packetIdSource;
      var d' := d.(ps := if d.qos == QOS1 then WaitForPuback else WaitForPubrec, dir := MdIn, packetId := id);
      var c' := c.(queue := c.queue[i := d'], packetIdSource := Inc16(id));
      Outcome(w.(heap := w.heap[r := c']), HANDLE_RET_KEEP_MSG, Some(PublishFrame(m, d.qos, id)))
  }

  /** handle_message_queue: only an entry waiting to be published is sent;
      any other entry is left alone with no packet. */
  function MessageQueueSpec(w: World, r: Ref, i: nat): Outcome
    requires r in w.heap && i < |w.heap[r].queue|
    requires w.heap[r].queue[i].ps == WaitToPublish ==>
      w.heap[r].queue[i].qos <= QOS2 && w.heap[r].queue[i].msg in w.records
  {
    if w.heap[r].queue[i].ps == WaitToPublish then SendPublishSpec(w, r, i) else Outcome(w, SUCESS, None)
  }

  method SendPublish(tbl: Table, reg: Registry, idx: Index, r: Ref, i: nat) returns (ret: int, out: Packet)
    requires tbl.Valid() && r in tbl.heap && i < |tbl.heap[r].queue|
    requires tbl.heap[r].queue[i].qos <= QOS2 && tbl.heap[r].queue[i].msg in reg.records
    modifies tbl`heap, reg`records
    ensures fresh(out) && fresh(out.load)
    ensures var o := SendPublishSpec(old(Now(tbl, reg, idx)), r, i);
      Now(tbl, reg, idx) == o.w && ret == o.ret && Replied(out, o.reply)
    ensures tbl.Valid()
  {
    var c := tbl.heap[r];
    var d := c.queue[i];
    var m := reg.records[d.msg].msg;
    if d.qos == QOS0 {
      out := BuildPublish(m, QOS0, 0);
      reg.Deref(d.msg);
      return HANDLE_RET_REMOVE_MSG, out;
    }
    var id := c.packetIdSource;
    out := BuildPublish(m, d.qos, id);
    var ps := if d.qos == QOS1 then WaitForPuback else WaitForPubrec;
    tbl.Put(r, c.(queue := c.queue[i := d.(ps := ps, dir := MdIn, packetId := id)], packetIdSource := Inc16(id)));
    ret := HANDLE_RET_KEEP_MSG;
  }

  method HandleMessageQueue(tbl: Table, reg: Registry, idx: Index, r: Ref, i: nat) returns (ret: int, out: Packet?)
    requires tbl.Valid() && r in tbl.heap && i < |tbl.heap[r].queue|
    requires tbl.heap[r].queue[i].ps == WaitToPublish ==>
      tbl.heap[r].queue[i].qos <= QOS2 && tbl.heap[r].queue[i].msg in reg.records
    modifies tbl`heap, reg`records
    ensures out != null ==> fresh(out) && fresh(out.load)
    ensures var o := MessageQueueSpec(old(Now(tbl, reg, idx)), r, i);
      Now(tbl, reg, idx) == o.w && ret == o.ret && Replied(out, o.reply)
    ensures tbl.Valid()
  {
    if tbl.heap[r].queue[i].ps == WaitToPublish {
      ret, out := SendPublish(tbl, reg, idx, r, i);
    } else {
      ret, out := SUCESS, null;
    }
  }

  /** What the subscriber receives from send_publish: the stored topic and
      content, the entry's QoS, no DUP or RETAIN, and for QoS 1 and 2 the
      packet id the entry now waits under, which was the client's
      packet_id_source. */
  lemma SentPublishCarriesId(w: World, r: Ref, i: nat)
    requires r in w.heap && i < |w.heap[r].queue|
    requires w.heap[r].queue[i].qos <= QOS2 && w.heap[r].queue[i].msg in w.records
    requires var m := w.records[w.heap[r].queue[i].msg].msg; WireString(m.topic) && WireString(m.content)
    ensures var o := SendPublishSpec(w, r, i); var d := w.heap[r].queue[i]; var m := w.records[d.msg].msg;
      o.reply.Some? && |o.reply.value.payload| == o.reply.value.remainLen &&
      ParsePublish(o.reply.value.flags, o.reply.value.payload) ==
        Some(TopicMessage(if d.qos == QOS0 then 0 else w.heap[r].packetIdSource, m.topic, m.content, d.qos, 0, 0)) &&
      (d.qos != QOS0 ==>
        r in o.w.heap && o.w.heap[r].queue[i].packetId == w.heap[r].packetIdSource &&
        o.w.heap[r].packetIdSource == Inc16(w.heap[r].packetIdSource))
  {
    var d := w.heap[r].queue[i];
    var m := w.records[d.msg].msg;
    PublishFrameReadsBack(m, d.qos, if d.qos == QOS0 then 0 else w.heap[r].packetIdSource);
  }

  // ------------------------------------------------------ acknowledgements

  /** The test the acknowledgement handlers apply to each queue entry. */
  predicate Awaits(d: Delivery, id: uint16, ps: PublishState)
  {
    d.packetId == id && d.ps == ps
  }

  /** The entry an acknowledgement acts on: the first, in queue order, with
      the packet id and exactly the expected state. */
  function FirstMatch(q: seq<Delivery>, id: uint16, ps: PublishState): (r: Option<nat>)
    ensures r.Some? ==> r.value < |q| && Awaits(q[r.value], id, ps)
    ensures r.Some? ==> forall j :: 0 <= j < r.value ==> !Awaits(q[j], id, ps)
    ensures r.None? ==> forall j :: 0 <= j < |q| ==> !Awaits(q[j], id, ps)
  {
    if q == [] then None
    else if Awaits(q[0], id, ps) then Some(0)
    else
      match FirstMatch(q[1..], id, ps)
      case None => None
      case Some(i) => Some(i + 1)
  }

  /** The list_for_each_safe search of the acknowledgement handlers. */
  method FindAwaiting(q: seq<Delivery>, id: uint16, ps: PublishState) returns (r: Option<nat>)
    ensures r == FirstMatch(q, id, ps)
  {
    var k := 0;
    while k < |q|
      invariant 0 <= k <= |q|
      invariant forall j :: 0 <= j < k ==> !Awaits(q[j], id, ps)
    {
      if q[k].packetId == id && q[k].ps == ps {
        return Some(k);
      }
      k := k + 1;
    }
    return None;
  }

  /** list_del of entry `i`. */
  function Without(q: seq<Delivery>, i: nat): (q': seq<Delivery>)
    requires i < |q|
    ensures |q'| == |q| - 1
    ensures forall j :: 0 <= j < i ==> q'[j] == q[j]
    ensures forall j :: i <= j < |q'| ==> q'[j] == q[j + 1]
  {
    q[..i] + q[i + 1..]
  }

  /** The state each acknowledgement expects its entry in. */
  function Expected(t: int): PublishState
  {
    if t == PUBACK then WaitForPuback
    else if t == PUBREC then WaitForPubrec
    else if t == PUBREL then WaitForPubrel
    else WaitForPubcomp
  }

  predicate IsAck(t: int)
  {
    t == PUBACK || t == PUBREC || t == PUBREL || t == PUBCOMP
  }

  /** Entry `i` of client `r` released and removed (PUBACK, PUBCOMP). */
  function Completed(w: World, r: Ref, i: nat): World
    requires r in w.heap && i < |w.heap[r].queue|
  {
    var c := w.heap[r];
    w.(heap := w.heap[r := c.(queue := Without(c.queue, i))], records := Released(w.records, c.queue[i].msg))
  }

  /** After the fan-out of handle_pubrel: entry `j` of client `r`'s queue in
      `st` releases record `h` and leaves the queue, and PUBCOMP answers. */
  function Unlinked(w: World, st: Stores, r: Ref, j: nat, h: Handle, id: uint16): Outcome
    requires r in st.heap && j < |st.heap[r].queue|
  {
    var c := st.heap[r];
    Outcome(w.(heap := st.heap[r := c.(queue := Without(c.queue, j))], records := Released(st.records, h)),
            SUCESS, Some(IdFrame(PUBCOMP, id)))
  }

  /** handle_pubrel on entry `i`: the message fans out (which may put new
      entries at the head of this very queue), the entry releases its
      reference and leaves the queue, and PUBCOMP answers. */
  function Relayed(w: World, r: Ref, i: nat, id: uint16): Outcome
    requires r in w.heap && i < |w.heap[r].queue|
  {
    var q := w.heap[r].queue;
    var h := q[i].msg;
    var st := Published(Stores(w.heap, w.records), w.nodes, h);
    PublishedKeepsClient(Stores(w.heap, w.records), w.nodes, h, r);
    Unlinked(w, st, r, |st.heap[r].queue| - |q| + i, h, id)
  }

  /** The four acknowledgement handlers: read the packet id, act on the first
      entry awaiting it in the expected state, and otherwise change nothing
      and send nothing. PUBACK and PUBCOMP complete the entry; PUBREC moves it
      to WAIT_FOR_PUBCOMP (MD_IN) and answers PUBREL; PUBREL relays the
      message and answers PUBCOMP. */
  function AckSpec(w: World, r: Ref, t: int, load: seq<uint8>): Outcome
    requires r in w.heap && IsAck(t)
  {
    match ReadU16At(load, 0)
    case None => Outcome(w, HANDLE_RET_CLOSE_CLIENT, None)
    case Some((id, _)) =>
      var q := w.heap[r].queue;
      match FirstMatch(q, id, Expected(t))
      case None => Outcome(w, SUCESS, None)
      case Some(i) =>
        if t == PUBACK || t == PUBCOMP then Outcome(Completed(w, r, i), SUCESS, None)
        else if t == PUBREC then
          var d := q[i].(dir := MdIn, ps := WaitForPubcomp);
          Outcome(w.(heap := w.heap[r := w.heap[r].(queue := q[i := d])]), SUCESS, Some(IdFrame(PUBREL, id)))
        else Relayed(w, r, i, id)
  }

  /** handle_puback (t = PUBACK) and handle_pubcomp (t = PUBCOMP). */
  method HandleCompletion(tbl: Table, reg: Registry, idx: Index, r: Ref, p: Packet, t: int) returns (ret: int)
    requires tbl.Valid() && r in tbl.heap && p.loadPos == 0 && (t == PUBACK || t == PUBCOMP)
    modifies tbl`heap, reg`records, p`loadPos
    ensures var o := AckSpec(old(Now(tbl, reg, idx)), r, t, p.load[..]);
      Now(tbl, reg, idx) == o.w && ret == o.ret && o.reply.None?
    ensures tbl.Valid()
  {
    var x := p.ReadUint16();
    if x.None? {
      return HANDLE_RET_CLOSE_CLIENT;
    }
    var q := tbl.heap[r].queue;
    var k := FindAwaiting(q, x.value, Expected(t));
    if k.Some? {
      var i := k.value;
      reg.Deref(q[i].msg);
      tbl.Put(r, tbl.heap[r].(queue := q[..i] + q[i + 1..]));
    }
    ret := SUCESS;
  }

  method HandlePubrec(tbl: Table, reg: Registry, idx: Index, r: Ref, p: Packet) returns (ret: int, out: Packet?)
    requires tbl.Valid() && r in tbl.heap && p.loadPos == 0
    modifies tbl`heap, p`loadPos
    ensures out != null ==> fresh(out) && fresh(out.load)
    ensures var o := AckSpec(old(Now(tbl, reg, idx)), r, PUBREC, p.load[..]);
      Now(tbl, reg, idx) == o.w && ret == o.ret && Replied(out, o.reply)
    ensures tbl.Valid()
  {
    var x := p.ReadUint16();
    if x.None? {
      return HANDLE_RET_CLOSE_CLIENT, null;
    }
    var q := tbl.heap[r].queue;
    var k := FindAwaiting(q, x.value, WaitForPubrec);
    out := null;
    if k.Some? {
      var i := k.value;
      tbl.Put(r, tbl.heap[r].(queue := q[i := q[i].(dir := MdIn, ps := WaitForPubcomp)]));
      out := BuildPacketWithPacketId(x.value, PUBREL);
    }
    ret := SUCESS;
  }

  lemma RelayedSteps(w: World, r: Ref, i: nat, id: uint16, st: Stores, j: nat)
    requires r in w.heap && i < |w.heap[r].queue|
    requires st == Published(Stores(w.heap, w.records), w.nodes, w.heap[r].queue[i].msg)
    requires r in st.heap && j == |st.heap[r].queue| - |w.heap[r].queue| + i && j < |st.heap[r].queue|
    ensures Relayed(w, r, i, id) == Unlinked(w, st, r, j, w.heap[r].queue[i].msg, id)
  {
  }

  /** The unlinking step of handle_pubrel. */
  method Unlink(tbl: Table, reg: Registry, idx: Index, r: Ref, j: nat, h: Handle, id: uint16) returns (out: Packet)
    requires tbl.Valid() && r in tbl.heap && j < |tbl.heap[r].queue|
    modifies tbl`heap, reg`records
    ensures fresh(out) && fresh(out.load)
    ensures var o := Unlinked(old(Now(tbl, reg, idx)), old(Stores(tbl.heap, reg.records)), r, j, h, id);
      Now(tbl, reg, idx) == o.w && Replied(out, o.reply)
    ensures tbl.Valid()
  {
    var q := tbl.heap[r].queue;
    reg.Deref(h);
    tbl.Put(r, tbl.heap[r].(queue := q[..j] + q[j + 1..]));
    out := BuildPacketWithPacketId(id, PUBCOMP);
  }

  /** The body of handle_pubrel once entry `i` is found. */
  method Relay(tbl: Table, reg: Registry, idx: Index, r: Ref, i: nat, id: uint16) returns (out: Packet)
    requires tbl.Valid() && r in tbl.heap && i < |tbl.heap[r].queue|
    modifies tbl`heap, reg`records
    ensures fresh(out) && fresh(out.load)
    ensures var o := Relayed(old(Now(tbl, reg, idx)), r, i, id); Now(tbl, reg, idx) == o.w && Replied(out, o.reply)
    ensures tbl.Valid()
  {
    ghost var w0 := Now(tbl, reg, idx);
    var j, h, st := FanOut(tbl, reg, idx, r, i);
    ghost var w1 := Now(tbl, reg, idx);
    out := Unlink(tbl, reg, idx, r, j, h, id);
    UnlinkedFrame(w0, w1, st, r, j, h, id);
    RelayedSteps(w0, r, i, id, st, j);
  }

  /** The fan-out of the released message, and where entry `i` now sits. */
  method FanOut(tbl: Table, reg: Registry, idx: Index, r: Ref, i: nat)
    returns (j: nat, h: Handle, ghost st: Stores)
    requires tbl.Valid() && r in tbl.heap && i < |tbl.heap[r].queue|
    modifies tbl`heap, reg`records
    ensures h == old(tbl.heap[r].queue[i].msg)
    ensures st == Published(old(Stores(tbl.heap, reg.records)), idx.nodes, h) && st == Stores(tbl.heap, reg.records)
    ensures r in st.heap && j == |st.heap[r].queue| - |old(tbl.heap[r].queue)| + i && j < |st.heap[r].queue|
    ensures tbl.Valid()
  {
    var q := tbl.heap[r].queue;
    h := q[i].msg;
    ghost var st0 := Stores(tbl.heap, reg.records);
    idx.Pub(tbl, reg, h);
    PublishedKeepsClient(st0, idx.nodes, h, r);
    st := Stores(tbl.heap, reg.records);
    j := |tbl.heap[r].queue| - |q| + i;
  }

  lemma UnlinkedFrame(w0: World, w1: World, st: Stores, r: Ref, j: nat, h: Handle, id: uint16)
    requires w0.nodes == w1.nodes && w0.nextHandle == w1.nextHandle
    requires r in st.heap && j < |st.heap[r].queue|
    ensures Unlinked(w1, st, r, j, h, id) == Unlinked(w0, st, r, j, h, id)
  {
  }

  method HandlePubrel(tbl: Table, reg: Registry, idx: Index, r: Ref, p: Packet) returns (ret: int, out: Packet?)
    requires tbl.Valid() && r in tbl.heap && p.loadPos == 0
    modifies tbl`heap, reg`records, p`loadPos
    ensures out != null ==> fresh(out) && fresh(out.load)
    ensures var o := AckSpec(old(Now(tbl, reg, idx)), r, PUBREL, p.load[..]);
      Now(tbl, reg, idx) == o.w && ret == o.ret && Replied(out, o.reply)
    ensures tbl.Valid()
  {
    var x := p.ReadUint16();
    if x.None? {
      return HANDLE_RET_CLOSE_CLIENT, null;
    }
    var k := FindAwaiting(tbl.heap[r].queue, x.value, WaitForPubrel);
    if k.None? {
      return SUCESS, null;
    }
    out := Relay(tbl, reg, idx, r, k.value, x.value);
    ret := SUCESS;
  }

  // ------------------------------------------- acknowledgements, what they mean

  /** An acknowledgement no entry is waiting for changes nothing and sends
      nothing; so a PUBACK, PUBREC, PUBREL or PUBCOMP repeated after its entry
      has moved on is a no-op. */
  lemma UnmatchedAckIgnored(w: World, r: Ref, t: int, id: uint16, rest: seq<uint8>)
    requires r in w.heap && IsAck(t)
    requires forall j :: 0 <= j < |w.heap[r].queue| ==> !Awaits(w.heap[r].queue[j], id, Expected(t))
    ensures AckSpec(w, r, t, U16Bytes(id) + rest) == Outcome(w, SUCESS, None)
  {
    Be16OfU16Bytes(id);
    assert ReadU16At(U16Bytes(id) + rest, 0) == Some((id, 2));
  }

  /** Only the first matching entry is touched: entries before it are not
      waiting for this acknowledgement, and every other entry of the queue is
      kept, in order. */
  lemma AckTouchesFirstMatchOnly(w: World, r: Ref, t: int, id: uint16, rest: seq<uint8>)
    requires r in w.heap && IsAck(t) && t != PUBREL
    requires FirstMatch(w.heap[r].queue, id, Expected(t)).Some?
    ensures var i := FirstMatch(w.heap[r].queue, id, Expected(t)).value; var q := w.heap[r].queue;
      var o := AckSpec(w, r, t, U16Bytes(id) + rest);
      (forall j :: 0 <= j < i ==> !Awaits(q[j], id, Expected(t))) &&
      r in o.w.heap && o.w.heap[r] == w.heap[r].(queue := o.w.heap[r].queue) &&
      (t == PUBREC ==> o.w.heap[r].queue == q[i := q[i].(dir := MdIn, ps := WaitForPubcomp)] &&
                       o.w.records == w.records && o.reply == Some(IdFrame(PUBREL, id))) &&
      (t != PUBREC ==> o.w.heap[r].queue == q[..i] + q[i + 1..] &&
                       o.w.records == Released(w.records, q[i].msg) && o.reply.None?)
  {
    Be16OfU16Bytes(id);
    assert ReadU16At(U16Bytes(id) + rest, 0) == Some((id, 2));
  }

  /** A QoS 1 entry sent by send_publish is completed by the PUBACK a
      subscriber sends back with the packet id it read from that PUBLISH
      (unless an earlier entry waits under the same id): the entry leaves the
      queue and its reference is released. */
  lemma PubackCompletesSent(w: World, r: Ref, i: nat, rest: seq<uint8>)
    requires r in w.heap && i < |w.heap[r].queue|
    requires w.heap[r].queue[i].qos == QOS1 && w.heap[r].queue[i].msg in w.records
    requires var m := w.records[w.heap[r].queue[i].msg].msg; WireString(m.topic) && WireString(m.content)
    requires forall j :: 0 <= j < i ==> !Awaits(w.heap[r].queue[j], w.heap[r].packetIdSource, WaitForPuback)
    ensures var sent := SendPublishSpec(w, r, i); var d := w.heap[r].queue[i];
      ParsePublish(sent.reply.value.flags, sent.reply.value.payload).Some? &&
      var id := ParsePublish(sent.reply.value.flags, sent.reply.value.payload).value.packetId;
      var acked := AckSpec(sent.w, r, PUBACK, U16Bytes(id) + rest);
      acked.w.heap == w.heap[r := sent.w.heap[r].(queue := w.heap[r].queue[..i] + w.heap[r].queue[i + 1..])] &&
      acked.w.records == Released(w.records, d.msg) && acked.ret == SUCESS && acked.reply.None?
  {
    SentPublishCarriesId(w, r, i);
    var sent := SendPublishSpec(w, r, i);
    var q' := sent.w.heap[r].queue;
    var id := w.heap[r].packetIdSource;
    forall j | 0 <= j < i
      ensures !Awaits(q'[j], id, WaitForPuback)
    {
      assert q'[j] == w.heap[r].queue[j];
    }
    assert FirstMatch(q', id, WaitForPuback) == Some(i);
    AckTouchesFirstMatchOnly(sent.w, r, PUBACK, id, rest);
    assert q'[..i] + q'[i + 1..] == w.heap[r].queue[..i] + w.heap[r].queue[i + 1..];
  }

  // ------------------------------------------------------------- SUBSCRIBE

  /** The loop of handle_subscribe from `pos`, with the return codes so far.
      It ends at the end of the payload; a QoS above 2 ends it with no SUBACK,
      keeping the subscriptions made before it. The result is the index and
      the return codes, or None when the client is to be closed. */
  function SubscribeFrom(nodes: map<seq<uint8>, seq<SubNode>>, heap: map<Ref, Client>, r: Ref,
                         load: seq<uint8>, pos: nat, rets: seq<uint8>): (map<seq<uint8>, seq<SubNode>>, Option<seq<uint8>>)
    decreases |load| - pos
  {
    if pos >= |load| then (nodes, Some(rets))
    else
      match ReadStrAt(load, pos)
      case None => (nodes, None)
      case Some((topic, p1)) =>
        match ReadU8At(load, p1)
        case None => (nodes, None)
        case Some((qos, p2)) =>
          if qos > QOS2 then (nodes, None)
          else SubscribeFrom(Subscribed(nodes, heap, topic, qos, r), heap, r, load, p2, rets + [qos])
  }

  /** handle_subscribe: the packet id, then one subscription per pair; SUBACK
      carries one return code per pair. */
  function SubscribeSpec(w: World, r: Ref, load: seq<uint8>): Outcome
  {
    match ReadU16At(load, 0)
    case None => Outcome(w, HANDLE_RET_CLOSE_CLIENT, None)
    case Some((id, p0)) =>
      var (nodes, rets) := SubscribeFrom(w.nodes, w.heap, r, load, p0, []);
      if rets.Some? then Outcome(w.(nodes := nodes), SUCESS, Some(SubackFrame(id, rets.value)))
      else Outcome(w.(nodes := nodes), HANDLE_RET_CLOSE_CLIENT, None)
  }

  method HandleSubscribe(tbl: Table, reg: Registry, idx: Index, r: Ref, p: Packet) returns (ret: int, out: Packet?)
    requires p.loadPos == 0 && p.remainLen == p.load.Length
    modifies idx, p`loadPos
    ensures out != null ==> fresh(out) && fresh(out.load)
    ensures var o := SubscribeSpec(old(Now(tbl, reg, idx)), r, p.load[..]);
      Now(tbl, reg, idx) == o.w && ret == o.ret && Replied(out, o.reply)
  {
    var x := p.ReadUint16();
    if x.None? {
      return HANDLE_RET_CLOSE_CLIENT, null;
    }
    ghost var load := p.load[..];
    ghost var whole := SubscribeFrom(idx.nodes, tbl.heap, r, load, 2, []);
    var rets: seq<uint8> := [];
    while p.loadPos < p.remainLen
      invariant p.loadPos <= p.load.Length
      invariant SubscribeFrom(idx.nodes, tbl.heap, r, load, p.loadPos, rets) == whole
      decreases p.load.Length - p.loadPos
    {
      var topic := p.ReadStr();
      if topic.None? {
        return HANDLE_RET_CLOSE_CLIENT, null;
      }
      var qos := p.ReadUint8();
      if qos.None? || qos.value > QOS2 {
        return HANDLE_RET_CLOSE_CLIENT, null;
      }
      idx.Subscribe(topic.value, qos.value, r, tbl.heap);
      rets := rets + [qos.value];
    }
    out := SendSuback(x.value, rets);
    ret := SUCESS;
  }

  /** The pairs of a SUBSCRIBE payload, as a client lays them out (section
      3.8.3 of MQTT 3.1.1). */
  datatype Filter = Filter(topic: seq<uint8>, qos: uint8)

  predicate WireFilters(fs: seq<Filter>)
  {
    forall k :: 0 <= k < |fs| ==> WireString(fs[k].topic)
  }

  function EncodeFilters(fs: seq<Filter>): (r: seq<uint8>)
  {
    if fs == [] then [] else WireStr(fs[0].topic) + [fs[0].qos] + EncodeFilters(fs[1..])
  }

  /** Subscribing to each pair in turn. */
  function SubscribedAll(nodes: map<seq<uint8>, seq<SubNode>>, heap: map<Ref, Client>, fs: seq<Filter>, r: Ref)
    : map<seq<uint8>, seq<SubNode>>
    decreases |fs|
  {
    if fs == [] then nodes else SubscribedAll(Subscribed(nodes, heap, fs[0].topic, fs[0].qos, r), heap, fs[1..], r)
  }

  function Qoses(fs: seq<Filter>): (q: seq<uint8>)
    ensures |q| == |fs| && forall k :: 0 <= k < |fs| ==> q[k] == fs[k].qos
  {
    if fs == [] then [] else [fs[0].qos] + Qoses(fs[1..])
  }

  /** One pair read back: the topic and QoS, the cursor past them. */
  lemma FilterPairAt(load: seq<uint8>, pre: seq<uint8>, pos: nat, f: Filter, rest: seq<uint8>) returns (p: nat)
    requires WireString(f.topic) && load == pre + (Str(f.topic) + [f.qos] + rest) && pos == |pre|
    ensures ReadStrAt(load, pos) == Some((f.topic, pos + 2 + |f.topic|))
    ensures ReadU8At(load, pos + 2 + |f.topic|) == Some((f.qos, p))
    ensures p == |pre + (Str(f.topic) + [f.qos])|
  {
    assert load == pre + Str(f.topic) + ([f.qos] + rest);
    StrRoundTrip(pre, f.topic, [f.qos] + rest);
    p := pos + 3 + |f.topic|;
    assert load[pos + 2 + |f.topic|] == f.qos;
  }

  lemma SubscribeStep(nodes: map<seq<uint8>, seq<SubNode>>, heap: map<Ref, Client>, r: Ref,
                      load: seq<uint8>, pos: nat, rets: seq<uint8>, topic: seq<uint8>, p1: nat, qos: uint8, p2: nat)
    requires pos < |load| && ReadStrAt(load, pos) == Some((topic, p1)) && ReadU8At(load, p1) == Some((qos, p2))
    requires qos <= QOS2
    ensures SubscribeFrom(nodes, heap, r, load, pos, rets) ==
      SubscribeFrom(Subscribed(nodes, heap, topic, qos, r), heap, r, load, p2, rets + [qos])
  {
  }

  lemma EncodeFiltersHead(fs: seq<Filter>, tail: seq<uint8>) returns (rest: seq<uint8>)
    requires fs != [] && WireString(fs[0].topic)
    ensures rest == EncodeFilters(fs[1..]) + tail
    ensures EncodeFilters(fs) + tail == Str(fs[0].topic) + [fs[0].qos] + rest
  {
    rest := EncodeFilters(fs[1..]) + tail;
  }

  /** The first pair of a laid-out list and where the rest starts. */
  lemma FirstFilterAt(load: seq<uint8>, pre: seq<uint8>, fs: seq<Filter>, tail: seq<uint8>) returns (pre2: seq<uint8>)
    requires WireFilters(fs) && fs != []
    requires load == pre + (EncodeFilters(fs) + tail)
    ensures |pre| < |load|
    ensures ReadStrAt(load, |pre|) == Some((fs[0].topic, |pre| + 2 + |fs[0].topic|))
    ensures ReadU8At(load, |pre| + 2 + |fs[0].topic|) == Some((fs[0].qos, |pre2|))
    ensures load == pre2 + (EncodeFilters(fs[1..]) + tail)
    ensures |pre2| + |EncodeFilters(fs[1..])| == |pre| + |EncodeFilters(fs)|
  {
    var f := fs[0];
    assert WireString(f.topic);
    var rest := EncodeFiltersHead(fs, tail);
    var pair := Str(f.topic) + [f.qos];
    var p := FilterPairAt(load, pre, |pre|, f, rest);
    pre2 := pre + pair;
    Assoc(pre, pair, rest);
    assert |EncodeFilters(fs)| == |pair| + |EncodeFilters(fs[1..])|;
  }

  /** The first pair of a laid-out list, subscribed. */
  lemma SubscribeFirstFilter(nodes: map<seq<uint8>, seq<SubNode>>, heap: map<Ref, Client>, r: Ref,
                             load: seq<uint8>, pre: seq<uint8>, fs: seq<Filter>, tail: seq<uint8>, rets: seq<uint8>)
    returns (pre2: seq<uint8>)
    requires WireFilters(fs) && fs != [] && fs[0].qos <= QOS2
    requires load == pre + (EncodeFilters(fs) + tail)
    ensures load == pre2 + (EncodeFilters(fs[1..]) + tail)
    ensures |pre2| + |EncodeFilters(fs[1..])| == |pre| + |EncodeFilters(fs)|
    ensures SubscribeFrom(nodes, heap, r, load, |pre|, rets) ==
      SubscribeFrom(Subscribed(nodes, heap, fs[0].topic, fs[0].qos, r), heap, r, load, |pre2|, rets + [fs[0].qos])
  {
    pre2 := FirstFilterAt(load, pre, fs, tail);
    var f, p1, p2 := fs[0], |pre| + 2 + |fs[0].topic|, |pre2|;
    assert ReadStrAt(load, |pre|) == Some((f.topic, p1));
    assert ReadU8At(load, p1) == Some((f.qos, p2));
    SubscribeStep(nodes, heap, r, load, |pre|, rets, f.topic, p1, f.qos, p2);
  }

  /** The pairs a client lays out are subscribed in order, whatever follows
      them, as long as each QoS is at most 2. */
  lemma {:induction false} SubscribeFiltersAt(nodes: map<seq<uint8>, seq<SubNode>>, heap: map<Ref, Client>, r: Ref,
                                              load: seq<uint8>, pre: seq<uint8>, fs: seq<Filter>, tail: seq<uint8>,
                                              rets: seq<uint8>) returns (end: nat)
    requires WireFilters(fs) && forall k :: 0 <= k < |fs| ==> fs[k].qos <= QOS2
    requires load == pre + (EncodeFilters(fs) + tail)
    ensures end == |pre| + |EncodeFilters(fs)|
    ensures SubscribeFrom(nodes, heap, r, load, |pre|, rets) ==
      SubscribeFrom(SubscribedAll(nodes, heap, fs, r), heap, r, load, end, rets + Qoses(fs))
    decreases |fs|
  {
    end := |pre| + |EncodeFilters(fs)|;
    if fs == [] {
      assert rets + Qoses(fs) == rets;
    } else {
      var pre2 := SubscribeFirstFilter(nodes, heap, r, load, pre, fs, tail, rets);
      var n1 := Subscribed(nodes, heap, fs[0].topic, fs[0].qos, r);
      var e := SubscribeFiltersAt(n1, heap, r, load, pre2, fs[1..], tail, rets + [fs[0].qos]);
      assert e == end;
      QosesCons(rets, fs);
      SubscribedAllCons(nodes, heap, fs, r);
      EqualChain(SubscribeFrom(nodes, heap, r, load, |pre|, rets),
                         SubscribeFrom(n1, heap, r, load, |pre2|, rets + [fs[0].qos]),
                         SubscribeFrom(SubscribedAll(n1, heap, fs[1..], r), heap, r, load, e,
                                       rets + [fs[0].qos] + Qoses(fs[1..])),
                         SubscribeFrom(SubscribedAll(nodes, heap, fs, r), heap, r, load, end, rets + Qoses(fs)));
    }
  }

  lemma EqualChain<T>(a: T, b: T, c: T, d: T)
    requires a == b && b == c && c == d
    ensures a == d
  {
  }

  lemma QosesCons(rets: seq<uint8>, fs: seq<Filter>)
    requires fs != []
    ensures rets + [fs[0].qos] + Qoses(fs[1..]) == rets + Qoses(fs)
  {
  }

  lemma SubscribedAllCons(nodes: map<seq<uint8>, seq<SubNode>>, heap: map<Ref, Client>, fs: seq<Filter>, r: Ref)
    requires fs != []
    ensures SubscribedAll(Subscribed(nodes, heap, fs[0].topic, fs[0].qos, r), heap, fs[1..], r)
         == SubscribedAll(nodes, heap, fs, r)
  {
  }

  /** SUBSCRIBE as a client sends it: every pair is subscribed in order, and
      SUBACK echoes the packet id and the requested QoS values in order. */
  lemma SubscribeRoundTrip(w: World, r: Ref, id: uint16, fs: seq<Filter>)
    requires WireFilters(fs) && forall k :: 0 <= k < |fs| ==> fs[k].qos <= QOS2
    ensures SubscribeSpec(w, r, U16Bytes(id) + EncodeFilters(fs)) ==
      Outcome(w.(nodes := SubscribedAll(w.nodes, w.heap, fs, r)), SUCESS, Some(SubackFrame(id, Qoses(fs))))
  {
    var load := U16Bytes(id) + EncodeFilters(fs);
    assert load == U16Bytes(id) + (EncodeFilters(fs) + []);
    Be16OfU16Bytes(id);
    assert ReadU16At(load, 0) == Some((id, 2));
    var e := SubscribeFiltersAt(w.nodes, w.heap, r, load, U16Bytes(id), fs, [], []);
    assert e == |load|;
    assert [] + Qoses(fs) == Qoses(fs);
  }

  /** A pair with QoS above 2 closes the client with no SUBACK; the pairs
      before it stay subscribed and nothing after it is read. */
  lemma SubscribeBadQosStops(w: World, r: Ref, id: uint16, fs: seq<Filter>, bad: Filter, more: seq<uint8>)
    requires WireFilters(fs) && forall k :: 0 <= k < |fs| ==> fs[k].qos <= QOS2
    requires WireString(bad.topic) && bad.qos > QOS2
    ensures SubscribeSpec(w, r, U16Bytes(id) + (EncodeFilters(fs) + (Str(bad.topic) + [bad.qos] + more))) ==
      Outcome(w.(nodes := SubscribedAll(w.nodes, w.heap, fs, r)), HANDLE_RET_CLOSE_CLIENT, None)
  {
    var tail := Str(bad.topic) + [bad.qos] + more;
    var load := U16Bytes(id) + (EncodeFilters(fs) + tail);
    Be16OfU16Bytes(id);
    assert ReadU16At(load, 0) == Some((id, 2));
    var e := SubscribeFiltersAt(w.nodes, w.heap, r, load, U16Bytes(id), fs, tail, []);
    var pre2 := U16Bytes(id) + EncodeFilters(fs);
    assert load == pre2 + tail && e == |pre2|;
    var _ := FilterPairAt(load, pre2, |pre2|, bad, more);
  }

  // ----------------------------------------------------------- UNSUBSCRIBE

  /** The loop of handle_unsubscribe from `pos`: one unsubscription per topic
      until the end of the payload. The flag is false when a read runs past
      the payload. */
  function UnsubscribeFrom(nodes: map<seq<uint8>, seq<SubNode>>, heap: map<Ref, Client>, r: Ref,
                           load: seq<uint8>, pos: nat): (map<seq<uint8>, seq<SubNode>>, bool)
    decreases |load| - pos
  {
    if pos >= |load| then (nodes, true)
    else
      match ReadStrAt(load, pos)
      case None => (nodes, false)
      case Some((topic, p1)) => UnsubscribeFrom(Unsubscribed(nodes, heap, topic, r), heap, r, load, p1)
  }

  /** handle_unsubscribe: the packet id, the unsubscriptions, then UNSUBACK
      with the packet id. */
  function UnsubscribeSpec(w: World, r: Ref, load: seq<uint8>): Outcome
  {
    match ReadU16At(load, 0)
    case None => Outcome(w, HANDLE_RET_CLOSE_CLIENT, None)
    case Some((id, p0)) =>
      var (nodes, ok) := UnsubscribeFrom(w.nodes, w.heap, r, load, p0);
      if ok then Outcome(w.(nodes := nodes), SUCESS, Some(IdFrame(UNSUBACK, id)))
      else Outcome(w.(nodes := nodes), HANDLE_RET_CLOSE_CLIENT, None)
  }

  method HandleUnsubscribe(tbl: Table, reg: Registry, idx: Index, r: Ref, p: Packet) returns (ret: int, out: Packet?)
    requires p.loadPos == 0 && p.remainLen == p.load.Length
    modifies idx, p`loadPos
    ensures out != null ==> fresh(out) && fresh(out.load)
    ensures var o := UnsubscribeSpec(old(Now(tbl, reg, idx)), r, p.load[..]);
      Now(tbl, reg, idx) == o.w && ret == o.ret && Replied(out, o.reply)
  {
    var x := p.ReadUint16();
    if x.None? {
      return HANDLE_RET_CLOSE_CLIENT, null;
    }
    ghost var load := p.load[..];
    ghost var whole := UnsubscribeFrom(idx.nodes, tbl.heap, r, load, 2);
    while p.loadPos < p.remainLen
      invariant p.loadPos <= p.load.Length
      invariant UnsubscribeFrom(idx.nodes, tbl.heap, r, load, p.loadPos) == whole
      decreases p.load.Length - p.loadPos
    {
      var topic := p.ReadStr();
      if topic.None? {
        return HANDLE_RET_CLOSE_CLIENT, null;
      }
      idx.Unsubscribe(topic.value, r, tbl.heap);
    }
    out := BuildPacketWithPacketId(x.value, UNSUBACK);
    ret := SUCESS;
  }

  /** The topics of an UNSUBSCRIBE payload as a client lays them out
      (section 3.10.3 of MQTT 3.1.1). */
  function EncodeTopics(ts: seq<seq<uint8>>): seq<uint8>
  {
    if ts == [] then [] else WireStr(ts[0]) + EncodeTopics(ts[1..])
  }

  function UnsubscribedAll(nodes: map<seq<uint8>, seq<SubNode>>, heap: map<Ref, Client>, ts: seq<seq<uint8>>, r: Ref)
    : map<seq<uint8>, seq<SubNode>>
    decreases |ts|
  {
    if ts == [] then nodes else UnsubscribedAll(Unsubscribed(nodes, heap, ts[0], r), heap, ts[1..], r)
  }

  /** The first topic of a laid-out list and where the rest starts. */
  lemma FirstTopicAt(load: seq<uint8>, pre: seq<uint8>, ts: seq<seq<uint8>>) returns (pre2: seq<uint8>)
    requires ts != [] && WireString(ts[0])
    requires load == pre + EncodeTopics(ts)
    ensures |pre| < |load|
    ensures ReadStrAt(load, |pre|) == Some((ts[0], |pre2|))
    ensures load == pre2 + EncodeTopics(ts[1..])
  {
    assert load == pre + Str(ts[0]) + EncodeTopics(ts[1..]);
    StrRoundTrip(pre, ts[0], EncodeTopics(ts[1..]));
    pre2 := pre + Str(ts[0]);
  }

  /** The topics a client lays out are unsubscribed in order. */
  lemma {:induction false} UnsubscribeTopicsAt(nodes: map<seq<uint8>, seq<SubNode>>, heap: map<Ref, Client>, r: Ref,
                                               load: seq<uint8>, pre: seq<uint8>, ts: seq<seq<uint8>>)
    requires forall k :: 0 <= k < |ts| ==> WireString(ts[k])
    requires load == pre + EncodeTopics(ts)
    ensures UnsubscribeFrom(nodes, heap, r, load, |pre|) == (UnsubscribedAll(nodes, heap, ts, r), true)
    decreases |ts|
  {
    if ts != [] {
      var pre2 := FirstTopicAt(load, pre, ts);
      var n1 := Unsubscribed(nodes, heap, ts[0], r);
      assert UnsubscribeFrom(nodes, heap, r, load, |pre|) == UnsubscribeFrom(n1, heap, r, load, |pre2|);
      UnsubscribeTopicsAt(n1, heap, r, load, pre2, ts[1..]);
    }
  }

  /** UNSUBSCRIBE as a client sends it: every topic is unsubscribed in order
      and UNSUBACK echoes the packet id. */
  lemma UnsubscribeRoundTrip(w: World, r: Ref, id: uint16, ts: seq<seq<uint8>>)
    requires forall k :: 0 <= k < |ts| ==> WireString(ts[k])
    ensures UnsubscribeSpec(w, r, U16Bytes(id) + EncodeTopics(ts)) ==
      Outcome(w.(nodes := UnsubscribedAll(w.nodes, w.heap, ts, r)), SUCESS, Some(IdFrame(UNSUBACK, id)))
  {
    var load := U16Bytes(id) + EncodeTopics(ts);
    Be16OfU16Bytes(id);
    assert ReadU16At(load, 0) == Some((id, 2));
    UnsubscribeTopicsAt(w.nodes, w.heap, r, load, U16Bytes(id), ts);
  }

  /** Subscribing to a filter where the client has no entry and then
      unsubscribing from it gives back the index as it was: the SUBACK and
      UNSUBACK round trip through the handlers. */
  lemma SubscribeThenUnsubscribe(w: World, r: Ref, id1: uint16, id2: uint16, f: Filter)
    requires r in w.heap && WireString(f.topic) && f.qos <= QOS2
    requires f.topic in w.nodes ==> FirstSame(w.nodes[f.topic], w.heap, r).None? && w.nodes[f.topic] != []
    ensures var s := SubscribeSpec(w, r, U16Bytes(id1) + EncodeFilters([f]));
      s.reply == Some(SubackFrame(id1, [f.qos])) &&
      UnsubscribeSpec(s.w, r, U16Bytes(id2) + EncodeTopics([f.topic])) == Outcome(w, SUCESS, Some(IdFrame(UNSUBACK, id2)))
  {
    var fs := [f];
    SubscribeRoundTrip(w, r, id1, fs);
    var n1 := Subscribed(w.nodes, w.heap, f.topic, f.qos, r);
    assert fs[1..] == [];
    assert SubscribedAll(w.nodes, w.heap, fs, r) == n1;
    assert Qoses(fs) == [f.qos];
    var w1 := w.(nodes := n1);
    var ts := [f.topic];
    UnsubscribeRoundTrip(w1, r, id2, ts);
    UnsubscribeUndoesSubscribe(w.nodes, w.heap, f.topic, f.qos, r);
    assert ts[1..] == [];
    assert UnsubscribedAll(n1, w.heap, ts, r) == w.nodes;
    assert w1.(nodes := w.nodes) == w;
  }

  /** Every stored handle was handed out before (Registry.Valid on a World). */
  predicate HandlesBelow(w: World)
  {
    forall h :: h in w.records ==> h < w.nextHandle
  }

  // --------------------------------------------------- PINGREQ, DISCONNECT

  /** handle_pingreq: PINGRESP, nothing else. */
  function PingreqSpec(w: World): Outcome
  {
    Outcome(w, SUCESS, Some(PingrespFrame()))
  }

  /** handle_disconnect: the client is to be closed; nothing is sent. */
  function DisconnectSpec(w: World): Outcome
  {
    Outcome(w, HANDLE_RET_CLOSE_CLIENT, None)
  }

  // --------------------------------------------------------------- dispatch

  /** handle_packet: each control packet type a client sends goes to its
      handler; any other type is ignored (SUCESS, no reply). */
  function PacketSpec(w: World, byFd: map<int, Ref>, r: Ref, ptype: int, flags: uint8, load: seq<uint8>): Outcome
    requires r in w.heap
  {
    if ptype == CONNECT then ConnectSpec(w, byFd, w.heap[r].sockFd, load)
    else if ptype == PUBLISH then PublishSpec(w, r, flags, load)
    else if IsAck(ptype) then AckSpec(w, r, ptype, load)
    else if ptype == SUBSCRIBE then SubscribeSpec(w, r, load)
    else if ptype == UNSUBSCRIBE then UnsubscribeSpec(w, r, load)
    else if ptype == PINGREQ then PingreqSpec(w)
    else if ptype == DISCONNECT then DisconnectSpec(w)
    else Outcome(w, SUCESS, None)
  }

  method HandlePacket(tbl: Table, reg: Registry, idx: Index, r: Ref, p: Packet) returns (ret: int, out: Packet?)
    requires tbl.Valid() && reg.Valid() && r in tbl.heap
    requires p.loadPos == 0 && p.remainLen == p.load.Length
    modifies tbl`heap, reg, idx, p`loadPos
    ensures out != null ==> fresh(out) && fresh(out.load)
    ensures var o := PacketSpec(old(Now(tbl, reg, idx)), tbl.byFd, r, p.ptype, p.flags, p.load[..]);
      Now(tbl, reg, idx) == o.w && ret == o.ret && Replied(out, o.reply)
    ensures tbl.Valid() && reg.Valid()
  {
    PacketSpecKeepsHandles(Now(tbl, reg, idx), tbl.byFd, r, p.ptype, p.flags, p.load[..]);
    ret, out := SUCESS, null;
    var t := p.ptype;
    if t == CONNECT {
      ret, out := HandleConnect(tbl, reg, idx, r, p);
    } else if t == PUBLISH {
      ret, out := HandlePublish(tbl, reg, idx, r, p);
    } else if t == PUBACK || t == PUBCOMP {
      ret := HandleCompletion(tbl, reg, idx, r, p, t);
    } else if t == PUBREC {
      ret, out := HandlePubrec(tbl, reg, idx, r, p);
    } else if t == PUBREL {
      ret, out := HandlePubrel(tbl, reg, idx, r, p);
    } else if t == SUBSCRIBE {
      ret, out := HandleSubscribe(tbl, reg, idx, r, p);
    } else if t == UNSUBSCRIBE {
      ret, out := HandleUnsubscribe(tbl, reg, idx, r, p);
    } else if t == PINGREQ {
      out := SendPingresp();
    } else if t == DISCONNECT {
      ret := HANDLE_RET_CLOSE_CLIENT;
    }
  }

  lemma PublishKeepsHandles(w: World, r: Ref, flags: uint8, load: seq<uint8>)
    requires HandlesBelow(w)
    ensures HandlesBelow(PublishSpec(w, r, flags, load).w)
  {
    match ParsePublish(flags, load)
    case None =>
    case Some(m) =>
      var h := w.nextHandle;
      var rec := w.records[h := Record(m, 0)];
      if m.qos != QOS2 {
        PublishedExtends(Stores(w.heap, rec), w.nodes, h);
      }
  }

  lemma AckKeepsHandles(w: World, r: Ref, t: int, load: seq<uint8>)
    requires r in w.heap && IsAck(t) && HandlesBelow(w)
    ensures HandlesBelow(AckSpec(w, r, t, load).w)
  {
    match ReadU16At(load, 0)
    case None =>
    case Some((id, _)) =>
      match FirstMatch(w.heap[r].queue, id, Expected(t))
      case None =>
      case Some(i) =>
        if t == PUBREL {
          PublishedExtends(Stores(w.heap, w.records), w.nodes, w.heap[r].queue[i].msg);
        }
  }

  /** No handler stores a record under a handle it has not handed out. */
  lemma PacketSpecKeepsHandles(w: World, byFd: map<int, Ref>, r: Ref, ptype: int, flags: uint8, load: seq<uint8>)
    requires r in w.heap && HandlesBelow(w)
    ensures HandlesBelow(PacketSpec(w, byFd, r, ptype, flags, load).w)
  {
    if ptype == PUBLISH {
      PublishKeepsHandles(w, r, flags, load);
    } else if IsAck(ptype) {
      AckKeepsHandles(w, r, ptype, load);
    }
  }

  // --------------------------------------------- the store-wide invariant

  /** The invariant of the three globals for the sessions below Ref `n`:
      every stored handle was handed out, and the reference counts match
      the queues (SubTree.RefsMatch). */
  ghost predicate Consistent(w: World, n: nat)
  {
    HandlesBelow(w) && RefsMatch(Stores(w.heap, w.records), n)
  }

  /** The broker starts consistent: no session, no record. */
  lemma StartConsistent(nodes: map<seq<uint8>, seq<SubNode>>)
    ensures Consistent(World(map[], map[], 0, nodes), 0)
  {
  }

  /** Every message handle_publish reads is at QoS 0 to 2 and fits one
      PUBLISH: its topic and content are each shorter than 2^16. */
  lemma ParsedPublishFits(flags: uint8, load: seq<uint8>)
    requires ParsePublish(flags, load).Some?
    ensures ParsePublish(flags, load).value.qos <= QOS2 && Fits(ParsePublish(flags, load).value)
  {
    assert ReadStrAt(load, 0).Some?;
    var (len, p) := ReadU16At(load, 0).value;
    assert ReadStrAt(load, 0).value.0 == CStr(load[p..p + len]);
  }

  /** handle_connect changes no queue, so it keeps the invariant. */
  lemma ConnectKeeps(w: World, byFd: map<int, Ref>, fd: int, load: seq<uint8>, n: nat)
    requires Consistent(w, n)
    ensures Consistent(ConnectSpec(w, byFd, fd, load).w, n)
  {
    match ParseConnect(load)
    case Refused =>
    case LevelRejected =>
    case Accepted(req) =>
      ConnectedQueues(byFd, w.heap, fd, req);
      SameQueuesKeep(Stores(w.heap, w.records), Connected(byFd, w.heap, fd, req), n);
  }

  /** An accepted CONNECT keeps every session and every queue. */
  lemma ConnectedQueues(byFd: map<int, Ref>, heap: map<Ref, Client>, fd: int, req: ConnectRequest)
    ensures Connected(byFd, heap, fd, req).Keys == heap.Keys
    ensures forall r :: r in heap ==> Connected(byFd, heap, fd, req)[r].queue == heap[r].queue
  {
    var h1 := WithId(byFd, heap, fd, req.clientId);
    var h2 := if req.username.Some? || req.password.Some? then WithAuth(byFd, h1, fd, req.username, req.password) else h1;
    assert h1.Keys == heap.Keys && forall r :: r in heap ==> h1[r].queue == heap[r].queue;
    assert h2.Keys == heap.Keys && forall r :: r in heap ==> h2[r].queue == heap[r].queue;
  }

  /** handle_publish keeps the invariant: the new record starts at count 0
      and takes one reference per entry that fan-out, or the QoS 2 inbound
      entry, puts in a queue. */
  lemma PublishKeeps(w: World, r: Ref, flags: uint8, load: seq<uint8>, n: nat)
    requires r in w.heap && Consistent(w, n)
    ensures Consistent(PublishSpec(w, r, flags, load).w, n)
  {
    PublishKeepsHandles(w, r, flags, load);
    match ParsePublish(flags, load)
    case None =>
    case Some(m) =>
      ParsedPublishFits(flags, load);
      var h := w.nextHandle;
      var st := Stores(w.heap, w.records[h := Record(m, 0)]);
      StoredKeeps(Stores(w.heap, w.records), h, m, n);
      if m.qos == QOS2 {
        EnqueueKeeps(st, r, Delivery(WaitForPubrel, QOS2, MdIn, m.packetId, h), n);
      } else {
        PublishedKeeps(st, w.nodes, h, n);
      }
  }

  /** The four acknowledgement handlers keep the invariant. */
  lemma AckKeeps(w: World, r: Ref, t: int, load: seq<uint8>, n: nat)
    requires r in w.heap && IsAck(t) && Consistent(w, n)
    ensures Consistent(AckSpec(w, r, t, load).w, n)
  {
    AckKeepsHandles(w, r, t, load);
    var st := Stores(w.heap, w.records);
    match ReadU16At(load, 0)
    case None =>
    case Some((id, _)) =>
      var q := w.heap[r].queue;
      match FirstMatch(q, id, Expected(t))
      case None =>
      case Some(i) =>
        if t == PUBACK || t == PUBCOMP {
          RemoveReleaseKeeps(st, r, i, n);
        } else if t == PUBREC {
          var d := q[i].(dir := MdIn, ps := WaitForPubcomp);
          assert EntryOk(w.records, q[i]);
          ReplaceKeeps(st, r, i, d, w.heap[r].(queue := q[i := d]), n);
        } else {
          RelayKeeps(w, r, i, id, n);
        }
  }

  /** handle_pubrel on entry `i` keeps the invariant: fan-out takes its
      references, then the entry (still at the same place from the tail)
      releases its own. */
  lemma RelayKeeps(w: World, r: Ref, i: nat, id: uint16, n: nat)
    requires r in w.heap && i < |w.heap[r].queue| && RefsMatch(Stores(w.heap, w.records), n)
    ensures RefsMatch(Stores(Relayed(w, r, i, id).w.heap, Relayed(w, r, i, id).w.records), n)
  {
    var q := w.heap[r].queue;
    var st0 := Stores(w.heap, w.records);
    var st := Published(st0, w.nodes, q[i].msg);
    PublishedKeepsClient(st0, w.nodes, q[i].msg, r);
    PublishedKeeps(st0, w.nodes, q[i].msg, n);
    var j := |st.heap[r].queue| - |q| + i;
    PrependedAt(w.heap[r], st.heap[r], i);
    RelayedSteps(w, r, i, id, st, j);
    RemoveReleaseKeeps(st, r, j, n);
  }

  /** An entry of a queue that was extended at the front keeps its distance
      from the tail. */
  lemma PrependedAt(c: Client, c2: Client, i: nat)
    requires Prepended(c, c2) && i < |c.queue|
    ensures |c2.queue| - |c.queue| + i < |c2.queue| && c2.queue[|c2.queue| - |c.queue| + i] == c.queue[i]
  {
    assert c2.queue[|c2.queue| - |c.queue|..][i] == c.queue[i];
  }

  /** Every handler keeps the invariant. */
  lemma PacketSpecKeeps(w: World, byFd: map<int, Ref>, r: Ref, ptype: int, flags: uint8, load: seq<uint8>, n: nat)
    requires r in w.heap && Consistent(w, n)
    ensures Consistent(PacketSpec(w, byFd, r, ptype, flags, load).w, n)
  {
    if ptype == CONNECT {
      ConnectKeeps(w, byFd, w.heap[r].sockFd, load, n);
    } else if ptype == PUBLISH {
      PublishKeeps(w, r, flags, load, n);
    } else if IsAck(ptype) {
      AckKeeps(w, r, ptype, load, n);
    }
  }
}
