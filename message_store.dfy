/** The reference-counted message store of message.c and the queue entries of
    message.h. A published message is stored once, as a record; every queue
    entry that points at it holds one reference. */
module MessageStore {
  import opened CTypes

  /** The identity of a MessageStore record (its address in the C program). */
  type Handle = nat

  // enum publish_state (message.h)
  datatype PublishState =
    | WaitToPublish
    | WaitForPuback
    | WaitForPubrel
    | WaitForPubrec
    | WaitForPubcomp

  // enum message_dir (message.h)
  datatype MessageDir = MdIn | MdOut

  /** TopicPacket (protocol.h): one published message. */
  datatype TopicMessage = TopicMessage(
    packetId: uint16,
    topic: seq<uint8>,
    content: seq<uint8>,
    qos: uint8,
    dup: uint8,
    retain: uint8)

  /** MessageQueue (message.h): an entry of a session's queue. */
  datatype Delivery = Delivery(
    ps: PublishState,
    qos: uint8,
    dir: MessageDir,
    packetId: uint16,
    msg: Handle)

  /** MessageStore (message.h): the message and its reference count. */
  datatype Record = Record(msg: TopicMessage, count: nat)

  /** refer_count is a UINT32, so decrementing 0 gives 2^32 - 1. */
  const COUNT_WRAP := 0xFFFF_FFFF

  /** The number of entries of `queue` that point at record `h`. */
  function Occurrences(queue: seq<Delivery>, h: Handle): nat
  {
    if queue == [] then 0
    else (if queue[0].msg == h then 1 else 0) + Occurrences(queue[1..], h)
  }

  lemma {:induction false} OccurrencesAppend(a: seq<Delivery>, b: seq<Delivery>, h: Handle)
    ensures Occurrences(a + b, h) == Occurrences(a, h) + Occurrences(b, h)
    decreases |a|
  {
    if a != [] {
      assert (a + b)[0] == a[0];
      assert (a + b)[1..] == a[1..] + b;
      OccurrencesAppend(a[1..], b, h);
    } else {
      assert a + b == b;
    }
  }

  /** Removing entry `i` drops exactly one reference, to the record it points at. */
  lemma OccurrencesRemove(q: seq<Delivery>, i: nat, h: Handle)
    requires i < |q|
    ensures Occurrences(q[..i] + q[i + 1..], h) + (if q[i].msg == h then 1 else 0) == Occurrences(q, h)
  {
    assert q == q[..i] + [q[i]] + q[i + 1..];
    OccurrencesAppend(q[..i] + [q[i]], q[i + 1..], h);
    OccurrencesAppend(q[..i], [q[i]], h);
    OccurrencesAppend(q[..i], q[i + 1..], h);
  }

  /** Replacing entry `i` by one pointing at the same record keeps every count. */
  lemma OccurrencesUpdate(q: seq<Delivery>, i: nat, d: Delivery, h: Handle)
    requires i < |q| && d.msg == q[i].msg
    ensures Occurrences(q[i := d], h) == Occurrences(q, h)
  {
    assert q == q[..i] + [q[i]] + q[i + 1..];
    assert q[i := d] == q[..i] + [d] + q[i + 1..];
    OccurrencesAppend(q[..i] + [q[i]], q[i + 1..], h);
    OccurrencesAppend(q[..i], [q[i]], h);
    OccurrencesAppend(q[..i] + [d], q[i + 1..], h);
    OccurrencesAppend(q[..i], [d], h);
  }

  /** A queue none of whose entries points at `h` holds no reference to it. */
  lemma {:induction false} OccurrencesNone(q: seq<Delivery>, h: Handle)
    requires forall i :: 0 <= i < |q| ==> q[i].msg != h
    ensures Occurrences(q, h) == 0
    decreases |q|
  {
    if q != [] {
      assert q[0].msg != h;
      forall i | 0 <= i < |q[1..]|
        ensures q[1..][i].msg != h
      {
        assert q[1..][i] == q[i + 1];
      }
      OccurrencesNone(q[1..], h);
    }
  }

  // ------------------------------------------------------------ the store

  /** `refer_count++` on record `h` (subtree.c:145, packet_handle.c:371). */
  function Referenced(records: map<Handle, Record>, h: Handle): (r: map<Handle, Record>)
    ensures r.Keys == records.Keys
    ensures h in records ==> r[h].msg == records[h].msg && r[h].count == records[h].count + 1
    ensures forall k :: k in records && k != h ==> r[k] == records[k]
  {
    if h in records then records[h := records[h].(count := records[h].count + 1)] else records
  }

  /** iotbroker_message_store_deref: the count goes down by one with UINT32
      wrap-around, and a record whose count reaches 0 leaves the store. A
      record that is not there is left alone. */
  function Released(records: map<Handle, Record>, h: Handle): (r: map<Handle, Record>)
    ensures r.Keys <= records.Keys
  {
    if h !in records then records
    else if records[h].count == 1 then records - {h}
    else
      var c := if records[h].count == 0 then COUNT_WRAP else records[h].count - 1;
      records[h := records[h].(count := c)]
  }

  /** deref decrements by exactly one, removes the record exactly when the
      count reaches 0, and touches no other record. */
  lemma ReleasedCounts(records: map<Handle, Record>, h: Handle)
    requires h in records && records[h].count >= 1
    ensures h in Released(records, h) <==> records[h].count >= 2
    ensures h in Released(records, h) ==>
      Released(records, h)[h] == records[h].(count := records[h].count - 1)
    ensures forall k :: k != h ==>
      (k in Released(records, h) <==> k in records) &&
      (k in records ==> Released(records, h)[k] == records[k])
  {
  }

  /** Unguarded deref of a record at count 0 wraps to 2^32 - 1 and keeps it. */
  lemma ReleasedAtZeroWraps(records: map<Handle, Record>, h: Handle)
    requires h in records && records[h].count == 0
    ensures h in Released(records, h) && Released(records, h)[h].count == COUNT_WRAP
  {
  }

  /** Taking a reference and releasing it again leaves the store as it was,
      except that a record nobody referred to (count 0) is then destroyed. */
  lemma ReleaseUndoesReference(records: map<Handle, Record>, h: Handle)
    ensures Released(Referenced(records, h), h) ==
      if h in records && records[h].count == 0 then records - {h} else records
  {
    if h in records && records[h].count > 0 {
      var r1 := Referenced(records, h);
      assert r1[h].count >= 2;
      assert Released(r1, h) == r1[h := records[h]];
    }
  }

  /** Releasing every entry of `queue`, in queue order (session.c:138-146). */
  function ReleaseAll(records: map<Handle, Record>, queue: seq<Delivery>): (r: map<Handle, Record>)
    ensures r.Keys <= records.Keys
    decreases |queue|
  {
    if queue == [] then records else ReleaseAll(Released(records, queue[0].msg), queue[1..])
  }

  /** When every record holds at least the references the queue has on it,
      releasing the whole queue takes exactly its references off each record:
      a record the queue refers to is removed exactly when nothing else refers
      to it, and one it does not refer to is untouched. */
  lemma {:induction false} ReleaseAllCounts(records: map<Handle, Record>, queue: seq<Delivery>, k: Handle)
    requires forall i :: 0 <= i < |queue| ==> queue[i].msg in records
    requires forall h :: h in records ==> records[h].count >= Occurrences(queue, h)
    requires k in records
    ensures k in ReleaseAll(records, queue) <==>
      Occurrences(queue, k) == 0 || records[k].count > Occurrences(queue, k)
    ensures k in ReleaseAll(records, queue) ==>
      ReleaseAll(records, queue)[k] == records[k].(count := records[k].count - Occurrences(queue, k))
    decreases |queue|
  {
    if queue != [] {
      var h := queue[0].msg;
      var r1 := Released(records, h);
      var rest := queue[1..];
      assert queue == [queue[0]] + rest;
      forall g | g in records
        ensures Occurrences(queue, g) == (if g == h then 1 else 0) + Occurrences(rest, g)
      {
      }
      assert records[h].count >= 1;
      ReleasedCounts(records, h);
      forall i | 0 <= i < |rest|
        ensures rest[i].msg in r1
      {
        assert rest[i] == queue[i + 1];
        var g := rest[i].msg;
        if g == h {
          OccurrencesPositive(rest, i);
          assert records[h].count >= 2;
        }
      }
      forall g | g in r1
        ensures r1[g].count >= Occurrences(rest, g)
      {
      }
      assert ReleaseAll(records, queue) == ReleaseAll(r1, rest);
      if k in r1 {
        ReleaseAllCounts(r1, rest, k);
        assert r1[k].count - Occurrences(rest, k) == records[k].count - Occurrences(queue, k);
      } else {
        assert k == h && records[k].count == 1;
        assert Occurrences(rest, k) == 0;
        ReleaseAllAbsent(r1, rest, k);
      }
    }
  }

  lemma OccurrencesPositive(q: seq<Delivery>, i: nat)
    requires i < |q|
    ensures Occurrences(q, q[i].msg) >= 1
  {
    OccurrencesRemove(q, i, q[i].msg);
  }

  /** A record that is gone stays gone. */
  lemma {:induction false} ReleaseAllAbsent(records: map<Handle, Record>, queue: seq<Delivery>, k: Handle)
    requires k !in records
    ensures k !in ReleaseAll(records, queue)
    decreases |queue|
  {
    if queue != [] {
      ReleaseAllAbsent(Released(records, queue[0].msg), queue[1..], k);
    }
  }

  /** The global store of message.c: the records by handle, and the next
      fresh handle (a new allocation). */
  class Registry {
    var records: map<Handle, Record>
    var nextHandle: Handle

    /** Every stored handle was handed out before. */
    ghost predicate Valid()
      reads this
    {
      forall h :: h in records ==> h < nextHandle
    }

    /** iotbroker_message_store_init: an empty store. */
    constructor ()
      ensures records == map[] && nextHandle == 0
      ensures Valid()
    {
      records := map[];
      nextHandle := 0;
    }

    /** iotbroker_message_store_insert: a new record at count 0 under a fresh
        handle; no other record changes. */
    method Insert(msg: TopicMessage) returns (h: Handle)
      requires Valid()
      modifies this
      ensures h == old(nextHandle) && h !in old(records)
      ensures records == old(records)[h := Record(msg, 0)]
      ensures nextHandle == old(nextHandle) + 1
      ensures Valid()
    {
      h := nextHandle;
      records := records[h := Record(msg, 0)];
      nextHandle := nextHandle + 1;
    }

    /** `ms->refer_count++`. */
    method Reference(h: Handle)
      modifies this`records
      ensures records == Referenced(old(records), h)
    {
      if h in records {
        records := records[h := records[h].(count := records[h].count + 1)];
      }
    }

    /** iotbroker_message_store_deref. */
    method Deref(h: Handle)
      modifies this`records
      ensures records == Released(old(records), h)
    {
      if h !in records {
        return;
      }
      var c := records[h].count;
      c := if c == 0 then COUNT_WRAP else c - 1;
      if c == 0 {
        records := records - {h};
      } else {
        records := records[h := records[h].(count := c)];
      }
    }
  }
}
