/** The session table of session.c: one Client per connected socket, found by
    its fd, each with a queue of deliveries that hold references into the
    message store. */
module Session {
  import opened CTypes
  import opened MessageStore

  /** The identity of a Client (its address in the C program); SubNodes of the
      subscription index point at clients by Ref. */
  type Ref = nat

  // enum client_sate (session.h)
  datatype ClientState = WaitForConnect | Connecting | Disconnected

  /** Client (session.h). A NULL pointer field is None. The queue is the
      mq_head list, first entry first. */
  datatype Client = Client(
    sockFd: int,
    clientId: Option<seq<uint8>>,
    packetIdSource: uint16,
    username: Option<seq<uint8>>,
    password: Option<seq<uint8>>,
    address: seq<uint8>,
    port: uint16,
    state: ClientState,
    queue: seq<Delivery>)

  /** The session iotbroker_session_add creates: the address is the first
      `strlen(ip)` bytes of `ip` with that length kept in a UINT8, and the port
      is stored in a UINT16. */
  function NewClient(fd: int, ip: seq<uint8>, port: uint32): (c: Client)
    ensures c.state == WaitForConnect && c.packetIdSource == 1 && c.queue == []
    ensures c.sockFd == fd && c.clientId.None? && c.username.None? && c.password.None?
    ensures |CStr(ip)| < 256 ==> c.address == CStr(ip)
    ensures port < 0x1_0000 ==> c.port == port
  {
    var ipLen := |CStr(ip)| % 0x100;
    Client(fd, None, 1, None, None, CStr(ip)[..ipLen], port % 0x1_0000, WaitForConnect, [])
  }

  // ------------------------------------------------ references into the store

  /** The references the clients with Ref below `n` hold on record `h`. */
  function RefsBelow(heap: map<Ref, Client>, h: Handle, n: nat): nat
  {
    if n == 0 then 0
    else RefsBelow(heap, h, n - 1) + (if n - 1 in heap then Occurrences(heap[n - 1].queue, h) else 0)
  }

  /** The references a client contributes: its queue entries, none if absent. */
  function Held(heap: map<Ref, Client>, r: Ref, h: Handle): nat
  {
    if r in heap then Occurrences(heap[r].queue, h) else 0
  }

  /** Putting client `c` at `r` changes the total by exactly what `c` holds
      minus what was held there before. */
  lemma {:induction false} RefsBelowSet(heap: map<Ref, Client>, r: Ref, c: Client, h: Handle, n: nat)
    requires r < n
    ensures RefsBelow(heap[r := c], h, n) + Held(heap, r, h) == RefsBelow(heap, h, n) + Occurrences(c.queue, h)
    decreases n
  {
    if r < n - 1 {
      RefsBelowSet(heap, r, c, h, n - 1);
    } else {
      RefsBelowFrame(heap, heap[r := c], h, n - 1);
    }
  }

  /** Removing client `r` drops exactly what it held. */
  lemma {:induction false} RefsBelowRemove(heap: map<Ref, Client>, r: Ref, h: Handle, n: nat)
    requires r < n
    ensures RefsBelow(heap - {r}, h, n) + Held(heap, r, h) == RefsBelow(heap, h, n)
    decreases n
  {
    if r < n - 1 {
      RefsBelowRemove(heap, r, h, n - 1);
    } else {
      RefsBelowFrame(heap, heap - {r}, h, n - 1);
    }
  }

  /** Only the queues of the clients below `n` count: clients at or above
      `n`, and every other field of a client, do not. */
  lemma {:induction false} RefsBelowFrame(a: map<Ref, Client>, b: map<Ref, Client>, h: Handle, n: nat)
    requires forall r :: r < n ==> (r in a <==> r in b) && (r in a ==> a[r].queue == b[r].queue)
    ensures RefsBelow(a, h, n) == RefsBelow(b, h, n)
    decreases n
  {
    if n > 0 {
      RefsBelowFrame(a, b, h, n - 1);
    }
  }

  /** No single client holds more than the total. */
  lemma {:induction false} HeldBelowTotal(heap: map<Ref, Client>, r: Ref, h: Handle, n: nat)
    requires r < n
    ensures Held(heap, r, h) <= RefsBelow(heap, h, n)
    decreases n
  {
    if r < n - 1 {
      HeldBelowTotal(heap, r, h, n - 1);
    }
  }

  /** No entry below `n` points at `h`: the total is 0. */
  lemma {:induction false} RefsBelowNone(heap: map<Ref, Client>, h: Handle, n: nat)
    requires forall r, i :: r in heap && 0 <= i < |heap[r].queue| ==> heap[r].queue[i].msg != h
    ensures RefsBelow(heap, h, n) == 0
    decreases n
  {
    if n > 0 {
      RefsBelowNone(heap, h, n - 1);
      if n - 1 in heap {
        OccurrencesNone(heap[n - 1].queue, h);
      }
    }
  }

  /** A total of 0 means that no entry of a client below `n` points at `h`. */
  lemma RefsBelowZero(heap: map<Ref, Client>, r: Ref, h: Handle, n: nat)
    requires r in heap && r < n && RefsBelow(heap, h, n) == 0
    ensures forall i :: 0 <= i < |heap[r].queue| ==> heap[r].queue[i].msg != h
  {
    HeldBelowTotal(heap, r, h, n);
    forall i | 0 <= i < |heap[r].queue|
      ensures heap[r].queue[i].msg != h
    {
      OccurrencesPositive(heap[r].queue, i);
    }
  }

  // ------------------------------------------------------ the session table

  /** The client registered under `fd`, as HASH_FIND_INT finds it. */
  function Find(byFd: map<int, Ref>, heap: map<Ref, Client>, fd: int): (r: Option<Ref>)
    ensures r.Some? ==> fd in byFd && r.value == byFd[fd] && r.value in heap
  {
    if fd in byFd && byFd[fd] in heap then Some(byFd[fd]) else None
  }

  /** `c->client_id = client_id` on the session of `fd`. */
  function WithId(byFd: map<int, Ref>, heap: map<Ref, Client>, fd: int, id: seq<uint8>): map<Ref, Client>
  {
    match Find(byFd, heap, fd)
    case None => heap
    case Some(r) => heap[r := heap[r].(clientId := Some(id))]
  }

  /** `c->username = username; c->password = password` on the session of `fd`. */
  function WithAuth(byFd: map<int, Ref>, heap: map<Ref, Client>, fd: int,
                    u: Option<seq<uint8>>, p: Option<seq<uint8>>): map<Ref, Client>
  {
    match Find(byFd, heap, fd)
    case None => heap
    case Some(r) => heap[r := heap[r].(username := u, password := p)]
  }

  /** `c->state = newstate` on the session of `fd`. */
  function WithState(byFd: map<int, Ref>, heap: map<Ref, Client>, fd: int, s: ClientState): map<Ref, Client>
  {
    match Find(byFd, heap, fd)
    case None => heap
    case Some(r) => heap[r := heap[r].(state := s)]
  }

  /** list_add of `d` to the queue of client `r`: the new entry goes first. */
  function Enqueued(heap: map<Ref, Client>, r: Ref, d: Delivery): (h': map<Ref, Client>)
    ensures h'.Keys == heap.Keys
  {
    if r in heap then heap[r := heap[r].(queue := [d] + heap[r].queue)] else heap
  }

  /** A per-field update leaves every other session and every other field as it was. */
  lemma SetterFrames(byFd: map<int, Ref>, heap: map<Ref, Client>, fd: int, id: seq<uint8>, s: ClientState)
    requires fd in byFd && byFd[fd] in heap
    ensures WithId(byFd, heap, fd, id) == heap[byFd[fd] := heap[byFd[fd]].(clientId := Some(id))]
    ensures WithState(byFd, heap, fd, s)[byFd[fd]].queue == heap[byFd[fd]].queue
    ensures forall r :: r in heap && r != byFd[fd] ==>
      WithId(byFd, heap, fd, id)[r] == heap[r] && WithState(byFd, heap, fd, s)[r] == heap[r]
  {
  }

  /** Prepending one entry adds exactly one reference to its record. */
  lemma EnqueuedRefs(heap: map<Ref, Client>, r: Ref, d: Delivery, h: Handle, n: nat)
    requires r in heap && r < n
    ensures RefsBelow(Enqueued(heap, r, d), h, n) == RefsBelow(heap, h, n) + (if d.msg == h then 1 else 0)
  {
    var c := heap[r].(queue := [d] + heap[r].queue);
    RefsBelowSet(heap, r, c, h, n);
    OccurrencesAppend([d], heap[r].queue, h);
  }

  lemma ReleaseAllSnoc(records: map<Handle, Record>, q: seq<Delivery>, d: Delivery)
    ensures ReleaseAll(records, q + [d]) == Released(ReleaseAll(records, q), d.msg)
    decreases |q|
  {
    if q != [] {
      assert (q + [d])[1..] == q[1..] + [d];
      ReleaseAllSnoc(Released(records, q[0].msg), q[1..], d);
    } else {
      assert q + [d] == [d];
    }
  }

  /** The global hash table of session.c. `byFd` is the hash keyed by socket,
      `heap` the clients that are allocated, `nextRef` a fresh address. */
  class Table {
    var byFd: map<int, Ref>
    var heap: map<Ref, Client>
    var nextRef: Ref

    /** The hash and the allocated clients agree: each fd names one client
        whose sock_fd it is, and each client is in the hash under its fd. */
    ghost predicate Valid()
      reads this
    {
      (forall fd :: fd in byFd ==> byFd[fd] in heap && heap[byFd[fd]].sockFd == fd) &&
      (forall r :: r in heap ==> r < nextRef && heap[r].sockFd in byFd && byFd[heap[r].sockFd] == r)
    }

    constructor ()
      ensures byFd == map[] && heap == map[] && nextRef == 0
      ensures Valid()
    {
      byFd, heap, nextRef := map[], map[], 0;
    }

    /** iotbroker_session_get: the session registered under `fd`, or none. */
    method Get(fd: int) returns (r: Option<Ref>)
      requires Valid()
      ensures r.Some? <==> fd in byFd
      ensures r.Some? ==> r.value in heap && heap[r.value].sockFd == fd
      ensures r == Find(byFd, heap, fd)
    {
      if fd in byFd {
        r := Some(byFd[fd]);
      } else {
        r := None;
      }
    }

    /** iotbroker_session_add: nothing changes for a known fd; otherwise a new
        session under a fresh Ref. */
    method Add(fd: int, ip: seq<uint8>, port: uint32)
      requires Valid()
      modifies this
      ensures fd in old(byFd) ==> byFd == old(byFd) && heap == old(heap) && nextRef == old(nextRef)
      ensures fd !in old(byFd) ==>
        old(nextRef) !in old(heap) &&
        byFd == old(byFd)[fd := old(nextRef)] &&
        heap == old(heap)[old(nextRef) := NewClient(fd, ip, port)] &&
        nextRef == old(nextRef) + 1
      ensures Valid()
    {
      if fd in byFd {
        return;
      }
      var c := NewClient(fd, ip, port);
      heap := heap[nextRef := c];
      byFd := byFd[fd := nextRef];
      nextRef := nextRef + 1;
    }

    /** iotbroker_session_auth: FAILED for an unknown fd; otherwise the
        credentials are stored and SUCESS returned. */
    method Auth(fd: int, u: Option<seq<uint8>>, p: Option<seq<uint8>>) returns (ret: int)
      requires Valid()
      modifies this`heap
      ensures ret == (if fd in old(byFd) then SUCESS else FAILED)
      ensures heap == WithAuth(byFd, old(heap), fd, u, p)
      ensures Valid()
    {
      if fd !in byFd {
        return FAILED;
      }
      var r := byFd[fd];
      heap := heap[r := heap[r].(username := u, password := p)];
      ret := SUCESS;
    }

    /** iotbroker_session_setid. */
    method SetId(fd: int, id: seq<uint8>)
      requires Valid()
      modifies this`heap
      ensures heap == WithId(byFd, old(heap), fd, id)
      ensures Valid()
    {
      if fd !in byFd {
        return;
      }
      var r := byFd[fd];
      heap := heap[r := heap[r].(clientId := Some(id))];
    }

    /** iotbroker_session_state_mod. */
    method StateMod(fd: int, s: ClientState)
      requires Valid()
      modifies this`heap
      ensures heap == WithState(byFd, old(heap), fd, s)
      ensures Valid()
    {
      if fd !in byFd {
        return;
      }
      var r := byFd[fd];
      heap := heap[r := heap[r].(state := s)];
    }

    /** list_add of a delivery to the queue of client `r`. */
    method Enqueue(r: Ref, d: Delivery)
      requires Valid()
      modifies this`heap
      ensures heap == Enqueued(old(heap), r, d)
      ensures Valid()
    {
      if r in heap {
        heap := heap[r := heap[r].(queue := [d] + heap[r].queue)];
      }
    }

    /** In-place edits of client `r` (its queue entries, packet_id_source),
        keeping its socket. */
    method Put(r: Ref, c: Client)
      requires Valid() && r in heap && c.sockFd == heap[r].sockFd
      modifies this`heap
      ensures heap == old(heap)[r := c]
      ensures Valid()
    {
      heap := heap[r := c];
    }

    /** iotbroker_session_clean: every queued entry releases its record once,
        in queue order, and the session leaves the table; nothing else changes.
        The subscription index is not touched. */
    method Clean(fd: int, reg: Registry)
      requires Valid()
      modifies this, reg`records
      ensures fd !in old(byFd) ==> byFd == old(byFd) && heap == old(heap) && reg.records == old(reg.records)
      ensures fd in old(byFd) ==>
        byFd == old(byFd) - {fd} &&
        heap == old(heap) - {old(byFd)[fd]} &&
        reg.records == ReleaseAll(old(reg.records), old(heap)[old(byFd)[fd]].queue)
      ensures nextRef == old(nextRef)
      ensures Valid()
    {
      if fd !in byFd {
        return;
      }
      var r := byFd[fd];
      var q := heap[r].queue;
      ghost var start := reg.records;
      var i := 0;
      while i < |q|
        invariant 0 <= i <= |q|
        invariant reg.records == ReleaseAll(start, q[..i])
        invariant unchanged(this)
      {
        reg.Deref(q[i].msg);
        assert q[..i + 1] == q[..i] + [q[i]];
        ReleaseAllSnoc(start, q[..i], q[i]);
        i := i + 1;
      }
      assert q[..i] == q;
      heap := heap - {r};
      byFd := byFd - {fd};
    }
  }
}
