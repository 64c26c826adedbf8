/** The subscription index of subtree.c: a hash from filter string to the list
    of subscribers, topic tokenisation, and fan-out of a published message by
    looking up, level by level, the literal, '+' and '#' candidate strings of
    its topic. */
module SubTree {
  import opened CTypes
  import opened Codec
  import opened MessageStore
  import opened Session

  // ----------------------------------------------------------------- tokens

  function FirstSlash(t: seq<uint8>): (i: nat)
    requires SLASH in t
    ensures i < |t| && t[i] == SLASH && SLASH !in t[..i]
  {
    if t[0] == SLASH then 0
    else
      var j := FirstSlash(t[1..]);
      assert t[..j + 1] == [t[0]] + t[1..][..j];
      j + 1
  }

  /** get_topic_tokens: the levels of `t` between '/' separators; empty
      levels are kept. */
  function Tokens(t: seq<uint8>): (r: seq<seq<uint8>>)
    ensures |r| >= 1
    decreases |t|
  {
    if SLASH !in t then [t]
    else
      var i := FirstSlash(t);
      [t[..i]] + Tokens(t[i + 1..])
  }

  /** The levels written back with '/' between them. */
  function Join(levels: seq<seq<uint8>>): seq<uint8>
    requires |levels| >= 1
    decreases |levels|
  {
    if |levels| == 1 then levels[0] else levels[0] + [SLASH] + Join(levels[1..])
  }

  function Count(t: seq<uint8>, b: uint8): nat
  {
    if t == [] then 0 else (if t[0] == b then 1 else 0) + Count(t[1..], b)
  }

  lemma {:induction false} CountAppend(a: seq<uint8>, c: seq<uint8>, b: uint8)
    ensures Count(a + c, b) == Count(a, b) + Count(c, b)
    decreases |a|
  {
    if a == [] {
      assert a + c == c;
    } else {
      assert (a + c)[0] == a[0];
      assert (a + c)[1..] == a[1..] + c;
      CountAppend(a[1..], c, b);
    }
  }

  lemma {:induction false} CountAbsent(t: seq<uint8>, b: uint8)
    requires b !in t
    ensures Count(t, b) == 0
    decreases |t|
  {
    if t != [] {
      CountAbsent(t[1..], b);
    }
  }

  /** Splitting at the first '/' of `t`. */
  lemma SplitFirst(t: seq<uint8>)
    requires SLASH in t
    ensures t == t[..FirstSlash(t)] + [SLASH] + t[FirstSlash(t) + 1..]
    ensures Tokens(t) == [t[..FirstSlash(t)]] + Tokens(t[FirstSlash(t) + 1..])
  {
  }

  /** Joining the tokens with '/' gives back the topic. */
  lemma {:induction false} JoinTokens(t: seq<uint8>)
    ensures Join(Tokens(t)) == t
    decreases |t|
  {
    if SLASH in t {
      var i := FirstSlash(t);
      var rest := Tokens(t[i + 1..]);
      JoinTokens(t[i + 1..]);
      SplitFirst(t);
      assert ([t[..i]] + rest)[1..] == rest;
    }
  }

  /** A topic with k '/' has k + 1 tokens. */
  lemma {:induction false} TokensCount(t: seq<uint8>)
    ensures |Tokens(t)| == Count(t, SLASH) + 1
    decreases |t|
  {
    if SLASH in t {
      var i := FirstSlash(t);
      TokensCount(t[i + 1..]);
      SplitFirst(t);
      CountAppend(t[..i] + [SLASH], t[i + 1..], SLASH);
      CountAppend(t[..i], [SLASH], SLASH);
      CountAbsent(t[..i], SLASH);
    } else {
      CountAbsent(t, SLASH);
    }
  }

  /** No token holds a '/'. */
  lemma {:induction false} TokensHaveNoSlash(t: seq<uint8>)
    ensures forall k :: 0 <= k < |Tokens(t)| ==> SLASH !in Tokens(t)[k]
    decreases |t|
  {
    if SLASH in t {
      var i := FirstSlash(t);
      TokensHaveNoSlash(t[i + 1..]);
      SplitFirst(t);
    }
  }

  /** The first '/' is the one at `i` when none comes before it. */
  lemma FirstSlashAt(t: seq<uint8>, i: nat)
    requires i < |t| && t[i] == SLASH && SLASH !in t[..i]
    ensures FirstSlash(t) == i
  {
    var j := FirstSlash(t);
    forall k | 0 <= k < i
      ensures t[k] != SLASH
    {
      assert t[..i][k] == t[k];
    }
    forall k | 0 <= k < j
      ensures t[k] != SLASH
    {
      assert t[..j][k] == t[k];
    }
  }

  /** Tokenising a join of '/'-free levels gives the levels back. */
  lemma {:induction false} TokensOfJoin(levels: seq<seq<uint8>>)
    requires |levels| >= 1
    requires forall k :: 0 <= k < |levels| ==> SLASH !in levels[k]
    ensures Tokens(Join(levels)) == levels
    decreases |levels|
  {
    if |levels| > 1 {
      var l0 := levels[0];
      var rest := Join(levels[1..]);
      var t := l0 + [SLASH] + rest;
      assert Join(levels) == t;
      assert t[..|l0|] == l0;
      FirstSlashAt(t, |l0|);
      assert t[|l0| + 1..] == rest;
      TokensOfJoin(levels[1..]);
      assert Tokens(t) == [l0] + Tokens(rest);
      assert [l0] + levels[1..] == levels;
    }
  }

  /** The tokeniser after a level that ends in a '/' at `pos`. */
  lemma TokensAt(t: seq<uint8>, from: nat, pos: nat)
    requires from <= pos < |t| && t[pos] == SLASH && SLASH !in t[from..pos]
    ensures Tokens(t[from..]) == [t[from..pos]] + Tokens(t[pos + 1..])
  {
    var u := t[from..];
    assert u[..pos - from] == t[from..pos];
    FirstSlashAt(u, pos - from);
    assert u[pos - from + 1..] == t[pos + 1..];
  }

  /** get_topic_tokens: one pass over the topic up to its terminating NUL,
      cutting a token at every '/' and at the end. */
  method GetTopicTokens(topic: seq<uint8>) returns (toks: seq<seq<uint8>>)
    ensures toks == Tokens(CStr(topic))
  {
    // the terminating NUL ends the last token
    toks := SplitLevels(CStr(topic));
  }

  /** The loop of get_topic_tokens over the bytes before the NUL. */
  method SplitLevels(t: seq<uint8>) returns (toks: seq<seq<uint8>>)
    ensures toks == Tokens(t)
  {
    ghost var rest := Tokens(t);
    assert t[0..] == t;
    toks := [];
    var from := 0;
    var pos := 0;
    while pos < |t|
      invariant from <= pos <= |t|
      invariant SlashFree(t, from, pos)
      invariant rest == Tokens(t[from..])
      invariant toks + rest == Tokens(t)
    {
      if t[pos] == SLASH {
        rest := TokensCut(t, from, pos, toks, rest);
        toks := toks + [t[from..pos]];
        from := pos + 1;
      } else {
        SlashFreeStep(t, from, pos);
      }
      pos := pos + 1;
    }
    TokensLast(t, from, rest);
    toks := toks + [t[from..]];
  }

  /** No '/' in `t[from..pos]`. */
  predicate SlashFree(t: seq<uint8>, from: nat, pos: nat)
  {
    forall k :: from <= k < pos && k < |t| ==> t[k] != SLASH
  }

  lemma SlashFreeStep(t: seq<uint8>, from: nat, pos: nat)
    requires SlashFree(t, from, pos) && pos < |t| && t[pos] != SLASH
    ensures SlashFree(t, from, pos + 1)
  {
  }

  /** One level cut at the '/' at `pos`: the tokens still to come. */
  lemma TokensCut(t: seq<uint8>, from: nat, pos: nat, toks: seq<seq<uint8>>, rest: seq<seq<uint8>>)
    returns (rest': seq<seq<uint8>>)
    requires from <= pos < |t| && t[pos] == SLASH
    requires SlashFree(t, from, pos)
    requires rest == Tokens(t[from..])
    ensures rest' == Tokens(t[pos + 1..])
    ensures toks + rest == (toks + [t[from..pos]]) + rest'
  {
    assert SLASH !in t[from..pos];
    TokensAt(t, from, pos);
    rest' := Tokens(t[pos + 1..]);
  }

  /** The level after the last '/'. */
  lemma TokensLast(t: seq<uint8>, from: nat, rest: seq<seq<uint8>>)
    requires from <= |t|
    requires SlashFree(t, from, |t|)
    requires rest == Tokens(t[from..])
    ensures rest == [t[from..]]
  {
    assert SLASH !in t[from..];
    TokensOfSlashFree(t[from..]);
  }

  lemma TokensOfSlashFree(u: seq<uint8>)
    requires SLASH !in u
    ensures Tokens(u) == [u]
  {
  }

  // ---------------------------------------------------- subscriber lists

  /** SubNode (subtree.h): the subscribing client and its requested QoS. */
  datatype SubNode = SubNode(client: Ref, qos: uint8)

  /** `strcmp(a->client_id, b->client_id) == 0`: both clients allocated and
      with the same id; two clients that never connected (NULL ids) count as
      the same, and a freed client as different from every other. */
  predicate SameClient(heap: map<Ref, Client>, a: Ref, b: Ref)
  {
    a in heap && b in heap && heap[a].clientId == heap[b].clientId
  }

  /** The first entry of the list whose client has the same id as `r`. */
  function FirstSame(subs: seq<SubNode>, heap: map<Ref, Client>, r: Ref): (i: Option<nat>)
    ensures i.Some? ==> i.value < |subs| && SameClient(heap, subs[i.value].client, r)
    ensures i.Some? ==> forall j :: 0 <= j < i.value ==> !SameClient(heap, subs[j].client, r)
    ensures i.None? ==> forall j :: 0 <= j < |subs| ==> !SameClient(heap, subs[j].client, r)
    decreases |subs|
  {
    if subs == [] then None
    else if SameClient(heap, subs[0].client, r) then Some(0)
    else
      match FirstSame(subs[1..], heap, r)
      case None => None
      case Some(j) => Some(j + 1)
  }

  /** iotbroker_subtree_sub: a new filter gets a list of one; an entry with
      the same client id gets the new QoS in place; otherwise the subscriber
      is put first. */
  function Subscribed(nodes: map<seq<uint8>, seq<SubNode>>, heap: map<Ref, Client>,
                      topic: seq<uint8>, qos: uint8, r: Ref): map<seq<uint8>, seq<SubNode>>
  {
    if topic !in nodes then nodes[topic := [SubNode(r, qos)]]
    else
      var subs := nodes[topic];
      match FirstSame(subs, heap, r)
      case Some(i) => nodes[topic := subs[i := subs[i].(qos := qos)]]
      case None => nodes[topic := [SubNode(r, qos)] + subs]
  }

  /** iotbroker_subtree_unsub: the first entry with the same client id goes,
      and a filter whose list becomes empty leaves the index. */
  function Unsubscribed(nodes: map<seq<uint8>, seq<SubNode>>, heap: map<Ref, Client>,
                        topic: seq<uint8>, r: Ref): map<seq<uint8>, seq<SubNode>>
  {
    if topic !in nodes then nodes
    else
      var subs := nodes[topic];
      var rest := match FirstSame(subs, heap, r)
        case Some(i) => subs[..i] + subs[i + 1..]
        case None => subs;
      if rest == [] then nodes - {topic} else nodes[topic := rest]
  }

  /** Subscribing puts an entry with the client's id and the requested QoS
      under the filter; the list grows by one exactly when no entry had that
      id, and no other filter changes. */
  lemma SubscribeEffect(nodes: map<seq<uint8>, seq<SubNode>>, heap: map<Ref, Client>,
                        topic: seq<uint8>, qos: uint8, r: Ref)
    requires r in heap
    ensures var n := Subscribed(nodes, heap, topic, qos, r);
      topic in n &&
      (exists i :: 0 <= i < |n[topic]| && SameClient(heap, n[topic][i].client, r) && n[topic][i].qos == qos) &&
      |n[topic]| == (if topic !in nodes then 1
                     else if FirstSame(nodes[topic], heap, r).Some? then |nodes[topic]|
                     else |nodes[topic]| + 1) &&
      forall k :: k != topic ==> (k in n <==> k in nodes) && (k in n ==> n[k] == nodes[k])
  {
    var n: map<seq<uint8>, seq<SubNode>> := Subscribed(nodes, heap, topic, qos, r);
    if topic !in nodes {
      assert SameClient(heap, n[topic][0].client, r);
    } else {
      match FirstSame(nodes[topic], heap, r)
      case Some(i) =>
        assert SameClient(heap, n[topic][i].client, r);
      case None =>
        assert SameClient(heap, n[topic][0].client, r);
    }
  }

  /** Subscribing twice with the same filter, client and QoS is the same as once. */
  lemma SubscribeIdempotent(nodes: map<seq<uint8>, seq<SubNode>>, heap: map<Ref, Client>,
                            topic: seq<uint8>, qos: uint8, r: Ref)
    requires r in heap
    ensures Subscribed(Subscribed(nodes, heap, topic, qos, r), heap, topic, qos, r)
         == Subscribed(nodes, heap, topic, qos, r)
  {
    var n1 := Subscribed(nodes, heap, topic, qos, r);
    var subs1 := n1[topic];
    if topic !in nodes {
      assert FirstSame(subs1, heap, r) == Some(0);
      assert subs1[0 := subs1[0].(qos := qos)] == subs1;
    } else {
      match FirstSame(nodes[topic], heap, r)
      case Some(i) =>
        var subs := nodes[topic];
        assert FirstSame(subs1, heap, r) == Some(i) by {
          FirstSameSameIds(subs, subs1, heap, r);
        }
        assert subs1[i := subs1[i].(qos := qos)] == subs1;
      case None =>
        assert FirstSame(subs1, heap, r) == Some(0);
        assert subs1[0 := subs1[0].(qos := qos)] == subs1;
    }
  }

  /** Two lists whose entries have the same clients give the same first match. */
  lemma {:induction false} FirstSameSameIds(a: seq<SubNode>, b: seq<SubNode>, heap: map<Ref, Client>, r: Ref)
    requires |a| == |b| && forall j :: 0 <= j < |a| ==> a[j].client == b[j].client
    ensures FirstSame(a, heap, r) == FirstSame(b, heap, r)
    decreases |a|
  {
    if a != [] {
      FirstSameSameIds(a[1..], b[1..], heap, r);
    }
  }

  /** Unsubscribing a client that was just added to a filter where it had no
      entry gives back the index as it was. */
  lemma UnsubscribeUndoesSubscribe(nodes: map<seq<uint8>, seq<SubNode>>, heap: map<Ref, Client>,
                                   topic: seq<uint8>, qos: uint8, r: Ref)
    requires r in heap
    requires topic in nodes ==> FirstSame(nodes[topic], heap, r).None? && nodes[topic] != []
    ensures Unsubscribed(Subscribed(nodes, heap, topic, qos, r), heap, topic, r) == nodes
  {
    if topic in nodes {
      UndoPrepend(nodes, heap, topic, qos, r);
    } else {
      UndoNewFilter(nodes, heap, topic, qos, r);
    }
  }

  lemma UndoPrepend(nodes: map<seq<uint8>, seq<SubNode>>, heap: map<Ref, Client>,
                    topic: seq<uint8>, qos: uint8, r: Ref)
    requires r in heap && topic in nodes
    requires FirstSame(nodes[topic], heap, r).None? && nodes[topic] != []
    ensures Unsubscribed(Subscribed(nodes, heap, topic, qos, r), heap, topic, r) == nodes
  {
    var n1 := PrependNew(nodes, heap, topic, qos, r);
    DropFirst(n1, heap, topic, r);
    RestoreKey(nodes, topic, n1[topic]);
  }

  /** A client with no entry under an existing filter goes first in its list. */
  lemma PrependNew(nodes: map<seq<uint8>, seq<SubNode>>, heap: map<Ref, Client>,
                   topic: seq<uint8>, qos: uint8, r: Ref)
    returns (n1: map<seq<uint8>, seq<SubNode>>)
    requires r in heap && topic in nodes
    requires FirstSame(nodes[topic], heap, r).None? && nodes[topic] != []
    ensures n1 == Subscribed(nodes, heap, topic, qos, r)
    ensures n1 == nodes[topic := [SubNode(r, qos)] + nodes[topic]]
    ensures |n1[topic]| > 1 && n1[topic][1..] == nodes[topic] && FirstSame(n1[topic], heap, r) == Some(0)
  {
    var subs1 := [SubNode(r, qos)] + nodes[topic];
    n1 := nodes[topic := subs1];
    assert SameClient(heap, subs1[0].client, r);
    assert subs1[1..] == nodes[topic];
  }

  lemma RestoreKey(nodes: map<seq<uint8>, seq<SubNode>>, topic: seq<uint8>, v: seq<SubNode>)
    requires topic in nodes
    ensures nodes[topic := v][topic := nodes[topic]] == nodes
  {
  }

  /** Unsubscribing a client whose entry is first in a list of two or more. */
  lemma DropFirst(n: map<seq<uint8>, seq<SubNode>>, heap: map<Ref, Client>, topic: seq<uint8>, r: Ref)
    requires topic in n && |n[topic]| > 1 && FirstSame(n[topic], heap, r) == Some(0)
    ensures Unsubscribed(n, heap, topic, r) == n[topic := n[topic][1..]]
  {
    var subs := n[topic];
    assert subs[..0] + subs[1..] == subs[1..];
  }

  lemma UndoNewFilter(nodes: map<seq<uint8>, seq<SubNode>>, heap: map<Ref, Client>,
                      topic: seq<uint8>, qos: uint8, r: Ref)
    requires r in heap && topic !in nodes
    ensures Unsubscribed(Subscribed(nodes, heap, topic, qos, r), heap, topic, r) == nodes
  {
    var n1 := nodes[topic := [SubNode(r, qos)]];
    assert Subscribed(nodes, heap, topic, qos, r) == n1;
    assert FirstSame([SubNode(r, qos)], heap, r) == Some(0);
    assert Unsubscribed(n1, heap, topic, r) == n1 - {topic};
    assert n1 - {topic} == nodes;
  }

  /** Unsubscribing removes exactly the first entry with the client's id and
      leaves every other filter alone; an absent filter is a no-op. */
  lemma UnsubscribeEffect(nodes: map<seq<uint8>, seq<SubNode>>, heap: map<Ref, Client>,
                          topic: seq<uint8>, r: Ref)
    ensures topic !in nodes ==> Unsubscribed(nodes, heap, topic, r) == nodes
    ensures var n := Unsubscribed(nodes, heap, topic, r);
      forall k :: k != topic ==> (k in n <==> k in nodes) && (k in n ==> n[k] == nodes[k])
    ensures var n := Unsubscribed(nodes, heap, topic, r);
      topic in nodes ==>
        (topic in n <==>
          |nodes[topic]| > (if FirstSame(nodes[topic], heap, r).Some? then 1 else 0)) &&
        (topic in n ==> |n[topic]| == |nodes[topic]| - (if FirstSame(nodes[topic], heap, r).Some? then 1 else 0))
  {
  }

  /** The index keeps no empty lists. */
  ghost predicate NoEmptyLists(nodes: map<seq<uint8>, seq<SubNode>>)
  {
    forall k :: k in nodes ==> nodes[k] != []
  }

  lemma SubscribeKeepsLists(nodes: map<seq<uint8>, seq<SubNode>>, heap: map<Ref, Client>,
                            topic: seq<uint8>, qos: uint8, r: Ref)
    requires NoEmptyLists(nodes)
    ensures NoEmptyLists(Subscribed(nodes, heap, topic, qos, r))
    ensures NoEmptyLists(Unsubscribed(nodes, heap, topic, r))
  {
  }

  // --------------------------------------------------------------- fan-out

  /** What a fan-out changes: the sessions (their queues) and the store (counts). */
  datatype Stores = Stores(heap: map<Ref, Client>, records: map<Handle, Record>)

  /** A filter that is a key with subscribers: insert_message_to_subtree
      succeeds on it. */
  predicate Live(nodes: map<seq<uint8>, seq<SubNode>>, key: seq<uint8>)
  {
    key in nodes && |nodes[key]| > 0
  }

  function MinQos(a: uint8, b: uint8): uint8
  {
    if a < b then a else b
  }

  /** The queue entry fan-out creates. Its packet id is not set by the
      source; the model gives it 0. */
  function Entry(pubQos: uint8, s: SubNode, h: Handle): Delivery
  {
    Delivery(WaitToPublish, MinQos(pubQos, s.qos), MdOut, 0, h)
  }

  /** One subscriber of the list: an entry first in its queue and one more
      reference on the record. A subscriber whose session is gone is skipped. */
  function DeliverOne(st: Stores, s: SubNode, h: Handle, pubQos: uint8): Stores
  {
    if s.client in st.heap then
      Stores(Enqueued(st.heap, s.client, Entry(pubQos, s, h)), Referenced(st.records, h))
    else st
  }

  /** The loop of insert_message_to_subtree over one subscriber list. */
  function Delivered(st: Stores, subs: seq<SubNode>, h: Handle, pubQos: uint8): Stores
    decreases |subs|
  {
    if subs == [] then st else Delivered(DeliverOne(st, subs[0], h, pubQos), subs[1..], h, pubQos)
  }

  lemma {:induction false} DeliveredSnoc(st: Stores, subs: seq<SubNode>, s: SubNode, h: Handle, pubQos: uint8)
    ensures Delivered(st, subs + [s], h, pubQos) == DeliverOne(Delivered(st, subs, h, pubQos), s, h, pubQos)
    decreases |subs|
  {
    if subs == [] {
      assert subs + [s] == [s];
    } else {
      assert (subs + [s])[1..] == subs[1..] + [s];
      DeliveredSnoc(DeliverOne(st, subs[0], h, pubQos), subs[1..], s, h, pubQos);
    }
  }

  /** The corrected candidate filters for the levels `toks` after
      `prefix`, in insert_pub_message's order: the literal level, then (if
      that succeeded) the deeper candidates under it, then '+', then (if
      that succeeded) the deeper candidates under '+', then '#'. The
      source's own walk, with its stray '/', is PubLookupsAsWritten. */
  function Lookups(nodes: map<seq<uint8>, seq<SubNode>>, toks: seq<seq<uint8>>, prefix: seq<uint8>): seq<seq<uint8>>
    decreases |toks|
  {
    if toks == [] then []
    else
      var lit := prefix + toks[0];
      var plus := prefix + [PLUS];
      var hash := prefix + [HASH];
      [lit] + (if Live(nodes, lit) then Lookups(nodes, toks[1..], lit + [SLASH]) else [])
      + [plus] + (if Live(nodes, plus) then Lookups(nodes, toks[1..], plus + [SLASH]) else [])
      + [hash]
  }

  /** Each candidate in turn delivered to its subscriber list. */
  function DeliverKeys(st: Stores, nodes: map<seq<uint8>, seq<SubNode>>, keys: seq<seq<uint8>>,
                       h: Handle, pubQos: uint8): Stores
    decreases |keys|
  {
    if keys == [] then st
    else
      var st1 := if Live(nodes, keys[0]) then Delivered(st, nodes[keys[0]], h, pubQos) else st;
      DeliverKeys(st1, nodes, keys[1..], h, pubQos)
  }

  lemma {:induction false} DeliverKeysAppend(st: Stores, nodes: map<seq<uint8>, seq<SubNode>>,
                                             a: seq<seq<uint8>>, b: seq<seq<uint8>>, h: Handle, pubQos: uint8)
    ensures DeliverKeys(st, nodes, a + b, h, pubQos) == DeliverKeys(DeliverKeys(st, nodes, a, h, pubQos), nodes, b, h, pubQos)
    decreases |a|
  {
    if a == [] {
      assert a + b == b;
    } else {
      assert (a + b)[0] == a[0];
      assert (a + b)[1..] == a[1..] + b;
      var st1 := if Live(nodes, a[0]) then Delivered(st, nodes[a[0]], h, pubQos) else st;
      DeliverKeysAppend(st1, nodes, a[1..], b, h, pubQos);
    }
  }

  /** iotbroker_subtree_pub: the record's topic tokenised and every candidate
      delivered. A record that is not in the store is not published. */
  function Published(st: Stores, nodes: map<seq<uint8>, seq<SubNode>>, h: Handle): Stores
  {
    if h !in st.records then st
    else
      var m := st.records[h].msg;
      DeliverKeys(st, nodes, Lookups(nodes, Tokens(CStr(m.topic)), []), h, m.qos)
  }

  /** `c2` is `c` with entries put in front of its queue and nothing else changed. */
  predicate Prepended(c: Client, c2: Client)
  {
    |c.queue| <= |c2.queue| && c2.queue[|c2.queue| - |c.queue|..] == c.queue && c2 == c.(queue := c2.queue)
  }

  /** What fan-out may do to the stores: the same sessions and records, each
      queue extended at the front, no other session field changed, and every
      record the same message with at least its old count. */
  predicate Extends(a: Stores, b: Stores)
  {
    b.heap.Keys == a.heap.Keys && b.records.Keys == a.records.Keys &&
    (forall r :: r in a.heap ==> Prepended(a.heap[r], b.heap[r])) &&
    (forall k :: k in a.records ==> b.records[k].msg == a.records[k].msg && b.records[k].count >= a.records[k].count)
  }

  lemma ExtendsTrans(a: Stores, b: Stores, c: Stores)
    requires Extends(a, b) && Extends(b, c)
    ensures Extends(a, c)
  {
    forall r | r in a.heap
      ensures Prepended(a.heap[r], c.heap[r])
    {
      var q, q1, q2 := a.heap[r].queue, b.heap[r].queue, c.heap[r].queue;
      assert q2[|q2| - |q1|..][|q1| - |q|..] == q2[|q2| - |q|..];
    }
  }

  lemma DeliverOneExtends(st: Stores, s: SubNode, h: Handle, pubQos: uint8)
    ensures Extends(st, DeliverOne(st, s, h, pubQos))
  {
    if s.client in st.heap {
      var c := st.heap[s.client];
      var heap1 := st.heap[s.client := c.(queue := [Entry(pubQos, s, h)] + c.queue)];
      assert DeliverOne(st, s, h, pubQos) == Stores(heap1, Referenced(st.records, h));
      PrependedOne(c, Entry(pubQos, s, h));
      forall r | r in st.heap
        ensures Prepended(st.heap[r], heap1[r])
      {
        if r != s.client {
          PrependedRefl(st.heap[r]);
        }
      }
    } else {
      DeliverNothingExtends(st);
    }
  }

  lemma PrependedRefl(c: Client)
    ensures Prepended(c, c)
  {
    assert c.queue[0..] == c.queue;
  }

  lemma PrependedOne(c: Client, d: Delivery)
    ensures Prepended(c, c.(queue := [d] + c.queue))
  {
    assert ([d] + c.queue)[1..] == c.queue;
  }

  lemma {:induction false} DeliveredExtends(st: Stores, subs: seq<SubNode>, h: Handle, pubQos: uint8)
    ensures Extends(st, Delivered(st, subs, h, pubQos))
    decreases |subs|
  {
    if subs == [] {
      DeliverNothingExtends(st);
    } else {
      var st1 := DeliverOne(st, subs[0], h, pubQos);
      DeliverOneExtends(st, subs[0], h, pubQos);
      DeliveredExtends(st1, subs[1..], h, pubQos);
      ExtendsTrans(st, st1, Delivered(st1, subs[1..], h, pubQos));
    }
  }

  lemma DeliverNothingExtends(st: Stores)
    ensures Extends(st, st)
  {
    forall r | r in st.heap
      ensures Prepended(st.heap[r], st.heap[r])
    {
      PrependedRefl(st.heap[r]);
    }
  }

  lemma {:induction false} DeliverKeysExtends(st: Stores, nodes: map<seq<uint8>, seq<SubNode>>, keys: seq<seq<uint8>>,
                                               h: Handle, pubQos: uint8)
    ensures Extends(st, DeliverKeys(st, nodes, keys, h, pubQos))
    decreases |keys|
  {
    if keys == [] {
      DeliverNothingExtends(st);
    } else {
      var st1 := if Live(nodes, keys[0]) then Delivered(st, nodes[keys[0]], h, pubQos) else st;
      if Live(nodes, keys[0]) {
        DeliveredExtends(st, nodes[keys[0]], h, pubQos);
      } else {
        DeliverNothingExtends(st);
      }
      DeliverKeysExtends(st1, nodes, keys[1..], h, pubQos);
      ExtendsTrans(st, st1, DeliverKeys(st1, nodes, keys[1..], h, pubQos));
    }
  }

  /** A publication only puts entries in front of queues and raises counts. */
  lemma PublishedExtends(st: Stores, nodes: map<seq<uint8>, seq<SubNode>>, h: Handle)
    ensures Extends(st, Published(st, nodes, h))
  {
    if h in st.records {
      var m := st.records[h].msg;
      DeliverKeysExtends(st, nodes, Lookups(nodes, Tokens(CStr(m.topic)), []), h, m.qos);
    } else {
      DeliverNothingExtends(st);
    }
  }

  /** The same for one client: it is still there, and its old queue is the
      tail of its new one. */
  lemma PublishedKeepsClient(st: Stores, nodes: map<seq<uint8>, seq<SubNode>>, h: Handle, r: Ref)
    requires r in st.heap
    ensures r in Published(st, nodes, h).heap && Prepended(st.heap[r], Published(st, nodes, h).heap[r])
  {
    PublishedExtends(st, nodes, h);
  }

  /** Candidates none of which has subscribers deliver nothing. */
  lemma {:induction false} DeliverKeysNone(st: Stores, nodes: map<seq<uint8>, seq<SubNode>>, keys: seq<seq<uint8>>,
                                           h: Handle, pubQos: uint8)
    requires forall k :: 0 <= k < |keys| ==> !Live(nodes, keys[k])
    ensures DeliverKeys(st, nodes, keys, h, pubQos) == st
    decreases |keys|
  {
    if keys != [] {
      assert !Live(nodes, keys[0]);
      DeliverKeysNone(st, nodes, keys[1..], h, pubQos);
    }
  }

  /** A publication no matching filter has subscribers for changes nothing:
      the record keeps its count, no queue grows. */
  lemma PublishedUnmatched(st: Stores, nodes: map<seq<uint8>, seq<SubNode>>, h: Handle)
    requires h in st.records
    requires forall k :: k in Lookups(nodes, Tokens(CStr(st.records[h].msg.topic)), []) ==> !Live(nodes, k)
    ensures Published(st, nodes, h) == st
  {
    var keys := Lookups(nodes, Tokens(CStr(st.records[h].msg.topic)), []);
    DeliverKeysNone(st, nodes, keys, h, st.records[h].msg.qos);
  }

  // --------------------------------------------- what fan-out delivers where

  /** The live subscribers of a list. */
  function LiveCount(heap: map<Ref, Client>, subs: seq<SubNode>): nat
  {
    if subs == [] then 0 else (if subs[0].client in heap then 1 else 0) + LiveCount(heap, subs[1..])
  }

  /** The entries a list adds to the queue of `r`, newest (last subscriber) first. */
  function NewEntries(heap: map<Ref, Client>, subs: seq<SubNode>, r: Ref, h: Handle, pubQos: uint8): seq<Delivery>
  {
    if subs == [] then []
    else NewEntries(heap, subs[1..], r, h, pubQos) +
         (if subs[0].client == r && r in heap then [Entry(pubQos, subs[0], h)] else [])
  }

  /** Delivering a list changes neither which sessions exist nor which records. */
  lemma {:induction false} DeliveredDomains(st: Stores, subs: seq<SubNode>, h: Handle, pubQos: uint8)
    ensures Delivered(st, subs, h, pubQos).heap.Keys == st.heap.Keys
    ensures Delivered(st, subs, h, pubQos).records.Keys == st.records.Keys
    decreases |subs|
  {
    if subs != [] {
      DeliveredDomains(DeliverOne(st, subs[0], h, pubQos), subs[1..], h, pubQos);
    }
  }

  /** Delivering a list with N live subscribers raises the record's count by
      exactly N and touches no other record. */
  lemma {:induction false} DeliveredCount(st: Stores, subs: seq<SubNode>, h: Handle, pubQos: uint8)
    requires h in st.records
    ensures Delivered(st, subs, h, pubQos).records ==
      st.records[h := st.records[h].(count := st.records[h].count + LiveCount(st.heap, subs))]
    decreases |subs|
  {
    if subs != [] {
      var st1 := DeliverOne(st, subs[0], h, pubQos);
      DeliveredCount(st1, subs[1..], h, pubQos);
      LiveCountFrame(st.heap, st1.heap, subs[1..]);
    }
  }

  /** Delivering a list puts in front of each live client's queue one entry
      per list entry naming it, and changes nothing else about the client. */
  lemma {:induction false} DeliveredQueue(st: Stores, subs: seq<SubNode>, h: Handle, pubQos: uint8, r: Ref)
    requires r in st.heap
    ensures r in Delivered(st, subs, h, pubQos).heap
    ensures Delivered(st, subs, h, pubQos).heap[r] ==
      st.heap[r].(queue := NewEntries(st.heap, subs, r, h, pubQos) + st.heap[r].queue)
    decreases |subs|
  {
    DeliveredDomains(st, subs, h, pubQos);
    if subs != [] {
      var s := subs[0];
      var st1 := DeliverOne(st, s, h, pubQos);
      DeliveredQueue(st1, subs[1..], h, pubQos, r);
      NewEntriesFrame(st.heap, st1.heap, subs[1..], r, h, pubQos);
      var e := if s.client == r then [Entry(pubQos, s, h)] else [];
      var later := NewEntries(st.heap, subs[1..], r, h, pubQos);
      assert NewEntries(st.heap, subs, r, h, pubQos) == later + e;
      assert st1.heap[r] == st.heap[r].(queue := e + st.heap[r].queue);
      assert later + (e + st.heap[r].queue) == later + e + st.heap[r].queue;
    }
  }

  lemma {:induction false} LiveCountFrame(a: map<Ref, Client>, b: map<Ref, Client>, subs: seq<SubNode>)
    requires a.Keys == b.Keys
    ensures LiveCount(a, subs) == LiveCount(b, subs)
    decreases |subs|
  {
    if subs != [] {
      LiveCountFrame(a, b, subs[1..]);
    }
  }

  lemma {:induction false} NewEntriesFrame(a: map<Ref, Client>, b: map<Ref, Client>, subs: seq<SubNode>,
                                           r: Ref, h: Handle, pubQos: uint8)
    requires a.Keys == b.Keys
    ensures NewEntries(a, subs, r, h, pubQos) == NewEntries(b, subs, r, h, pubQos)
    decreases |subs|
  {
    if subs != [] {
      NewEntriesFrame(a, b, subs[1..], r, h, pubQos);
    }
  }

  /** With each client at most once in the list, every live subscriber gets
      exactly one new entry, first in its queue. */
  lemma DeliveredOncePerSubscriber(st: Stores, subs: seq<SubNode>, h: Handle, pubQos: uint8, i: nat)
    requires i < |subs| && subs[i].client in st.heap
    requires forall j, k :: 0 <= j < k < |subs| ==> subs[j].client != subs[k].client
    ensures subs[i].client in Delivered(st, subs, h, pubQos).heap
    ensures Delivered(st, subs, h, pubQos).heap[subs[i].client].queue
         == [Entry(pubQos, subs[i], h)] + st.heap[subs[i].client].queue
  {
    DeliveredQueue(st, subs, h, pubQos, subs[i].client);
    NewEntriesSingle(st.heap, subs, h, pubQos, i);
  }

  lemma {:induction false} NewEntriesSingle(heap: map<Ref, Client>, subs: seq<SubNode>, h: Handle, pubQos: uint8, i: nat)
    requires i < |subs| && subs[i].client in heap
    requires forall j, k :: 0 <= j < k < |subs| ==> subs[j].client != subs[k].client
    ensures NewEntries(heap, subs, subs[i].client, h, pubQos) == [Entry(pubQos, subs[i], h)]
    decreases |subs|
  {
    var r := subs[i].client;
    if i == 0 {
      NewEntriesNone(heap, subs[1..], r, h, pubQos);
    } else {
      assert subs[1..][i - 1] == subs[i];
      NewEntriesSingle(heap, subs[1..], h, pubQos, i - 1);
      assert subs[0].client != r;
    }
  }

  lemma {:induction false} NewEntriesNone(heap: map<Ref, Client>, subs: seq<SubNode>, r: Ref, h: Handle, pubQos: uint8)
    requires forall j :: 0 <= j < |subs| ==> subs[j].client != r
    ensures NewEntries(heap, subs, r, h, pubQos) == []
    decreases |subs|
  {
    if subs != [] {
      NewEntriesNone(heap, subs[1..], r, h, pubQos);
    }
  }

  // ------------------------------------------------- the reference counts

  /** A stored message that fits into one PUBLISH (remaining length at most
      MAX_REMAIN_LENGTH), as every message read by handle_publish does. */
  predicate Fits(m: TopicMessage)
  {
    |m.topic| + |m.content| + 4 <= MAX_REMAIN_LENGTH
  }

  /** A queue entry as the broker makes them: its message is stored, its QoS
      is 0 to 2, and an outgoing (MD_OUT) entry is still waiting to be
      published. */
  predicate EntryOk(records: map<Handle, Record>, d: Delivery)
  {
    d.msg in records && d.qos <= QOS2 && (d.dir == MdOut ==> d.ps == WaitToPublish)
  }

  /** The invariant message.c's reference counting rests on, for the
      sessions below Ref `n`: the refer_count of each record is exactly the
      number of queue entries pointing at it, every entry is EntryOk, and
      every stored message is one handle_publish accepts (QoS 0 to 2, fits
      one PUBLISH). */
  ghost predicate RefsMatch(st: Stores, n: nat)
  {
    (forall r :: r in st.heap ==> r < n) &&
    (forall h :: h in st.records ==> st.records[h].count == RefsBelow(st.heap, h, n)) &&
    (forall h :: h in st.records ==> st.records[h].msg.qos <= QOS2 && Fits(st.records[h].msg)) &&
    (forall r, i :: r in st.heap && 0 <= i < |st.heap[r].queue| ==> EntryOk(st.records, st.heap[r].queue[i]))
  }

  /** Under the invariant a session's queue never holds more references on a
      record than the record counts, and every entry's record counts at
      least 1: no deref of a handler or of iotbroker_session_clean starts at
      count 0, so the UINT32 wrap of deref is never reached. */
  lemma RefsMatchReleasable(st: Stores, n: nat, r: Ref)
    requires RefsMatch(st, n) && r in st.heap
    ensures forall h :: h in st.records ==> st.records[h].count >= Occurrences(st.heap[r].queue, h)
    ensures forall i :: 0 <= i < |st.heap[r].queue| ==>
      st.heap[r].queue[i].msg in st.records && st.records[st.heap[r].queue[i].msg].count >= 1
  {
    var q := st.heap[r].queue;
    forall h | h in st.records
      ensures st.records[h].count >= Occurrences(q, h)
    {
      HeldBelowTotal(st.heap, r, h, n);
    }
    forall i | 0 <= i < |q|
      ensures q[i].msg in st.records && st.records[q[i].msg].count >= 1
    {
      assert EntryOk(st.records, q[i]);
      OccurrencesPositive(q, i);
      HeldBelowTotal(st.heap, r, q[i].msg, n);
    }
  }

  /** list_add of an entry together with the reference it takes
      (subtree.c:143-145, packet_handle.c:366-371) keeps the invariant. */
  lemma EnqueueKeeps(st: Stores, r: Ref, d: Delivery, n: nat)
    requires RefsMatch(st, n) && r in st.heap && EntryOk(st.records, d)
    ensures RefsMatch(Stores(Enqueued(st.heap, r, d), Referenced(st.records, d.msg)), n)
  {
    var st' := Stores(Enqueued(st.heap, r, d), Referenced(st.records, d.msg));
    forall h | h in st'.records
      ensures st'.records[h].count == RefsBelow(st'.heap, h, n)
    {
      EnqueuedRefs(st.heap, r, d, h, n);
    }
    forall r2, i | r2 in st'.heap && 0 <= i < |st'.heap[r2].queue|
      ensures EntryOk(st'.records, st'.heap[r2].queue[i])
    {
      if r2 == r && i > 0 {
        assert st'.heap[r2].queue[i] == st.heap[r].queue[i - 1];
      }
    }
  }

  /** Fan-out to one subscriber keeps the invariant. */
  lemma DeliverOneKeeps(st: Stores, s: SubNode, h: Handle, pubQos: uint8, n: nat)
    requires RefsMatch(st, n) && h in st.records && pubQos <= QOS2
    ensures RefsMatch(DeliverOne(st, s, h, pubQos), n)
    ensures DeliverOne(st, s, h, pubQos).records.Keys == st.records.Keys
  {
    if s.client in st.heap {
      EnqueueKeeps(st, s.client, Entry(pubQos, s, h), n);
    }
  }

  lemma {:induction false} DeliveredKeeps(st: Stores, subs: seq<SubNode>, h: Handle, pubQos: uint8, n: nat)
    requires RefsMatch(st, n) && h in st.records && pubQos <= QOS2
    ensures RefsMatch(Delivered(st, subs, h, pubQos), n)
    decreases |subs|
  {
    if subs != [] {
      DeliverOneKeeps(st, subs[0], h, pubQos, n);
      DeliveredKeeps(DeliverOne(st, subs[0], h, pubQos), subs[1..], h, pubQos, n);
    }
  }

  lemma {:induction false} DeliverKeysKeeps(st: Stores, nodes: map<seq<uint8>, seq<SubNode>>, keys: seq<seq<uint8>>,
                                            h: Handle, pubQos: uint8, n: nat)
    requires RefsMatch(st, n) && h in st.records && pubQos <= QOS2
    ensures RefsMatch(DeliverKeys(st, nodes, keys, h, pubQos), n)
    decreases |keys|
  {
    if keys != [] {
      var st1 := if Live(nodes, keys[0]) then Delivered(st, nodes[keys[0]], h, pubQos) else st;
      if Live(nodes, keys[0]) {
        DeliveredKeeps(st, nodes[keys[0]], h, pubQos, n);
        DeliveredDomains(st, nodes[keys[0]], h, pubQos);
      }
      DeliverKeysKeeps(st1, nodes, keys[1..], h, pubQos, n);
    }
  }

  /** iotbroker_subtree_pub keeps the invariant: every entry it queues comes
      with its reference. */
  lemma PublishedKeeps(st: Stores, nodes: map<seq<uint8>, seq<SubNode>>, h: Handle, n: nat)
    requires RefsMatch(st, n)
    ensures RefsMatch(Published(st, nodes, h), n)
  {
    if h in st.records {
      var m := st.records[h].msg;
      DeliverKeysKeeps(st, nodes, Lookups(nodes, Tokens(CStr(m.topic)), []), h, m.qos, n);
    }
  }

  /** iotbroker_message_store_insert of an accepted message at count 0 under
      a handle no entry points at keeps the invariant. */
  lemma StoredKeeps(st: Stores, h: Handle, m: TopicMessage, n: nat)
    requires RefsMatch(st, n) && h !in st.records && m.qos <= QOS2 && Fits(m)
    ensures RefsMatch(Stores(st.heap, st.records[h := Record(m, 0)]), n)
  {
    RefsBelowNone(st.heap, h, n);
  }

  /** Entry `i` of session `r` released and unlinked (packet_handle.c PUBACK,
      PUBCOMP, PUBREL, and a QoS 0 entry once sent) keeps the invariant. */
  lemma RemoveReleaseKeeps(st: Stores, r: Ref, i: nat, n: nat)
    requires RefsMatch(st, n) && r in st.heap && i < |st.heap[r].queue|
    ensures var q := st.heap[r].queue;
      RefsMatch(Stores(st.heap[r := st.heap[r].(queue := q[..i] + q[i + 1..])], Released(st.records, q[i].msg)), n)
  {
    var q := st.heap[r].queue;
    var g := q[i].msg;
    var c' := st.heap[r].(queue := q[..i] + q[i + 1..]);
    var st' := Stores(st.heap[r := c'], Released(st.records, g));
    RefsMatchReleasable(st, n, r);
    ReleasedCounts(st.records, g);
    forall h | h in st.records
      ensures RefsBelow(st'.heap, h, n) + (if g == h then 1 else 0) == RefsBelow(st.heap, h, n)
    {
      RefsBelowSet(st.heap, r, c', h, n);
      OccurrencesRemove(q, i, h);
    }
    forall r2, k | r2 in st'.heap && 0 <= k < |st'.heap[r2].queue|
      ensures EntryOk(st'.records, st'.heap[r2].queue[k])
    {
      var e := st'.heap[r2].queue[k];
      assert e in st.heap[r2].queue;
      assert EntryOk(st.records, e);
      if e.msg == g && g !in st'.records {
        RefsBelowZero(st'.heap, r2, g, n);
      }
    }
  }

  /** Entry `i` of session `r` replaced by one pointing at the same record
      (the PUBREC move, a QoS 1 or 2 entry once sent) keeps the invariant,
      whatever else of the session changes. */
  lemma ReplaceKeeps(st: Stores, r: Ref, i: nat, d: Delivery, c: Client, n: nat)
    requires RefsMatch(st, n) && r in st.heap && i < |st.heap[r].queue|
    requires d.msg == st.heap[r].queue[i].msg && EntryOk(st.records, d) && c.queue == st.heap[r].queue[i := d]
    ensures RefsMatch(Stores(st.heap[r := c], st.records), n)
  {
    var st' := Stores(st.heap[r := c], st.records);
    forall h | h in st.records
      ensures RefsBelow(st'.heap, h, n) == RefsBelow(st.heap, h, n)
    {
      RefsBelowSet(st.heap, r, c, h, n);
      OccurrencesUpdate(st.heap[r].queue, i, d, h);
    }
    forall r2, k | r2 in st'.heap && 0 <= k < |st'.heap[r2].queue|
      ensures EntryOk(st'.records, st'.heap[r2].queue[k])
    {
      if r2 != r || k != i {
        assert st'.heap[r2].queue[k] == st.heap[r2].queue[k];
      }
    }
  }

  /** Changing only fields of the sessions other than their queues (the
      setters of session.c) keeps the invariant. */
  lemma SameQueuesKeep(st: Stores, heap: map<Ref, Client>, n: nat)
    requires RefsMatch(st, n) && heap.Keys == st.heap.Keys
    requires forall r :: r in st.heap ==> heap[r].queue == st.heap[r].queue
    ensures RefsMatch(Stores(heap, st.records), n)
  {
    forall h | h in st.records
      ensures RefsBelow(heap, h, n) == RefsBelow(st.heap, h, n)
    {
      RefsBelowFrame(heap, st.heap, h, n);
    }
  }

  /** iotbroker_session_clean keeps the invariant: the session's entries
      release exactly their references, and a record that leaves the store
      is one no other session points at. */
  lemma CleanKeeps(st: Stores, r: Ref, n: nat)
    requires RefsMatch(st, n) && r in st.heap
    ensures RefsMatch(Stores(st.heap - {r}, ReleaseAll(st.records, st.heap[r].queue)), n)
  {
    var q := st.heap[r].queue;
    var st' := Stores(st.heap - {r}, ReleaseAll(st.records, q));
    RefsMatchReleasable(st, n, r);
    forall k | k in st.records
      ensures k in st'.records <==> Occurrences(q, k) == 0 || st.records[k].count > Occurrences(q, k)
      ensures k in st'.records ==> st'.records[k] == st.records[k].(count := st.records[k].count - Occurrences(q, k))
      ensures RefsBelow(st'.heap, k, n) + Occurrences(q, k) == RefsBelow(st.heap, k, n)
    {
      ReleaseAllCounts(st.records, q, k);
      RefsBelowRemove(st.heap, r, k, n);
    }
    forall r2, k | r2 in st'.heap && 0 <= k < |st'.heap[r2].queue|
      ensures EntryOk(st'.records, st'.heap[r2].queue[k])
    {
      var e := st'.heap[r2].queue[k];
      assert e == st.heap[r2].queue[k];
      assert EntryOk(st.records, e);
      if e.msg !in st'.records {
        RefsBelowZero(st'.heap, r2, e.msg, n);
      }
    }
  }

  /** iotbroker_session_add keeps the invariant: the new session, under the
      fresh Ref `n`, has an empty queue. */
  lemma AddKeeps(st: Stores, c: Client, n: nat)
    requires RefsMatch(st, n) && c.queue == []
    ensures RefsMatch(Stores(st.heap[n := c], st.records), n + 1)
  {
    forall h | h in st.records
      ensures RefsBelow(st.heap[n := c], h, n + 1) == RefsBelow(st.heap, h, n)
    {
      RefsBelowFrame(st.heap[n := c], st.heap, h, n);
    }
  }

  // ------------------------------------- which filters the fan-out consults

  /** The relation between filters and topics that the source's lookup
      implements: `levels` is as deep as the topic levels `toks` or
      shallower, each level is the topic's own or '+', and the last level
      may be '#'. It is wider than topic matching in section 4.7 of MQTT
      3.1.1, where a filter shallower than the topic must end in '#': here
      "a" and "+" also match "a/b" (ParentFilterGetsChild). */
  predicate Matches(toks: seq<seq<uint8>>, levels: seq<seq<uint8>>)
  {
    1 <= |levels| <= |toks| &&
    (forall i :: 0 <= i < |levels| - 1 ==> levels[i] == toks[i] || levels[i] == [PLUS]) &&
    (levels[|levels| - 1] == toks[|levels| - 1] || levels[|levels| - 1] == [PLUS] || levels[|levels| - 1] == [HASH])
  }

  /** Every proper prefix of the filter is itself a filter with subscribers. */
  predicate Reachable(nodes: map<seq<uint8>, seq<SubNode>>, prefix: seq<uint8>, levels: seq<seq<uint8>>)
    requires |levels| >= 1
  {
    forall i :: 1 <= i < |levels| ==> Live(nodes, prefix + Join(levels[..i]))
  }

  lemma JoinCons(levels: seq<seq<uint8>>, i: nat)
    requires 2 <= i <= |levels|
    ensures Join(levels[..i]) == levels[0] + [SLASH] + Join(levels[1..i])
  {
    assert levels[..i][1..] == levels[1..i];
  }

  /** Lookups unfolded once: the literal candidate, its deeper candidates if
      it has subscribers, the same for '+', then '#'. */
  lemma LookupsUnfold(nodes: map<seq<uint8>, seq<SubNode>>, toks: seq<seq<uint8>>, prefix: seq<uint8>)
    returns (a: seq<seq<uint8>>, b: seq<seq<uint8>>)
    requires |toks| >= 1
    ensures a == if Live(nodes, prefix + toks[0]) then Lookups(nodes, toks[1..], prefix + toks[0] + [SLASH]) else []
    ensures b == if Live(nodes, prefix + [PLUS]) then Lookups(nodes, toks[1..], prefix + [PLUS] + [SLASH]) else []
    ensures Lookups(nodes, toks, prefix) == [prefix + toks[0]] + a + [prefix + [PLUS]] + b + [prefix + [HASH]]
  {
    var lit := prefix + toks[0];
    var plus := prefix + [PLUS];
    a := if Live(nodes, lit) then Lookups(nodes, toks[1..], lit + [SLASH]) else [];
    b := if Live(nodes, plus) then Lookups(nodes, toks[1..], plus + [SLASH]) else [];
  }

  /** The levels after the first still match the levels of the topic after its first. */
  lemma MatchesTail(toks: seq<seq<uint8>>, levels: seq<seq<uint8>>)
    requires Matches(toks, levels) && |levels| > 1
    ensures Matches(toks[1..], levels[1..])
    ensures levels[0] == toks[0] || levels[0] == [PLUS]
  {
    var rest := levels[1..];
    forall i | 0 <= i < |rest| - 1
      ensures rest[i] == toks[1..][i] || rest[i] == [PLUS]
    {
      assert rest[i] == levels[i + 1];
    }
  }

  /** The first level has subscribers, and the prefixes of the rest below it do too. */
  lemma ReachableTail(nodes: map<seq<uint8>, seq<SubNode>>, prefix: seq<uint8>, levels: seq<seq<uint8>>)
    requires |levels| > 1 && Reachable(nodes, prefix, levels)
    ensures Live(nodes, prefix + levels[0])
    ensures Reachable(nodes, prefix + levels[0] + [SLASH], levels[1..])
  {
    var rest := levels[1..];
    var pre := prefix + levels[0] + [SLASH];
    assert levels[..1] == [levels[0]];
    assert Live(nodes, prefix + Join(levels[..1]));
    forall i | 1 <= i < |rest|
      ensures Live(nodes, pre + Join(rest[..i]))
    {
      JoinCons(levels, i + 1);
      assert levels[1..i + 1] == rest[..i];
      assert pre + Join(rest[..i]) == prefix + Join(levels[..i + 1]);
    }
  }

  lemma JoinFirst(levels: seq<seq<uint8>>)
    requires |levels| > 1
    ensures Join(levels) == levels[0] + [SLASH] + Join(levels[1..])
  {
  }

  /** Every filter matching the topic level by level whose shorter prefixes
      all have subscribers is looked up. */
  lemma {:induction false} LookupsComplete(nodes: map<seq<uint8>, seq<SubNode>>, toks: seq<seq<uint8>>,
                                           prefix: seq<uint8>, levels: seq<seq<uint8>>)
    requires Matches(toks, levels) && Reachable(nodes, prefix, levels)
    ensures prefix + Join(levels) in Lookups(nodes, toks, prefix)
    decreases |toks|
  {
    if |levels| > 1 {
      MatchesTail(toks, levels);
      ReachableTail(nodes, prefix, levels);
      LookupsComplete(nodes, toks[1..], prefix + levels[0] + [SLASH], levels[1..]);
      DeeperLookedUp(nodes, toks, prefix, levels);
    } else {
      var a, b := LookupsUnfold(nodes, toks, prefix);
    }
  }

  /** A filter found below its matching first level is found from the level above. */
  lemma DeeperLookedUp(nodes: map<seq<uint8>, seq<SubNode>>, toks: seq<seq<uint8>>,
                       prefix: seq<uint8>, levels: seq<seq<uint8>>)
    requires |toks| >= 1 && |levels| > 1 && (levels[0] == toks[0] || levels[0] == [PLUS])
    requires Live(nodes, prefix + levels[0])
    requires prefix + levels[0] + [SLASH] + Join(levels[1..])
             in Lookups(nodes, toks[1..], prefix + levels[0] + [SLASH])
    ensures prefix + Join(levels) in Lookups(nodes, toks, prefix)
  {
    var a, b := LookupsUnfold(nodes, toks, prefix);
    var k := prefix + levels[0] + [SLASH] + Join(levels[1..]);
    JoinFirst(levels);
    LevelAssoc(prefix, levels[0], Join(levels[1..]));
    assert k == prefix + Join(levels);
    if levels[0] == toks[0] {
      assert k in a;
    } else {
      assert k in b;
    }
  }

  lemma LevelAssoc(prefix: seq<uint8>, l0: seq<uint8>, tail: seq<uint8>)
    ensures prefix + l0 + [SLASH] + tail == prefix + (l0 + [SLASH] + tail)
  {
  }

  /** A filter one level deeper: a matching first level with subscribers in
      front of a filter that matches the remaining levels. */
  lemma ConsLevel(nodes: map<seq<uint8>, seq<SubNode>>, toks: seq<seq<uint8>>, prefix: seq<uint8>,
                  l0: seq<uint8>, rest: seq<seq<uint8>>)
    requires |toks| >= 1 && (l0 == toks[0] || l0 == [PLUS]) && Live(nodes, prefix + l0)
    requires Matches(toks[1..], rest) && Reachable(nodes, prefix + l0 + [SLASH], rest)
    ensures Matches(toks, [l0] + rest) && Reachable(nodes, prefix, [l0] + rest)
    ensures prefix + Join([l0] + rest) == prefix + l0 + [SLASH] + Join(rest)
  {
    ConsMatches(toks, l0, rest);
    ConsReachable(nodes, prefix, l0, rest);
    assert ([l0] + rest)[1..] == rest;
    JoinFirst([l0] + rest);
  }

  lemma ConsMatches(toks: seq<seq<uint8>>, l0: seq<uint8>, rest: seq<seq<uint8>>)
    requires |toks| >= 1 && (l0 == toks[0] || l0 == [PLUS]) && Matches(toks[1..], rest)
    ensures Matches(toks, [l0] + rest)
  {
    var levels := [l0] + rest;
    forall i | 0 <= i < |levels| - 1
      ensures levels[i] == toks[i] || levels[i] == [PLUS]
    {
      if i > 0 {
        assert levels[i] == rest[i - 1];
      }
    }
    assert levels[|levels| - 1] == rest[|rest| - 1];
  }

  lemma ConsReachable(nodes: map<seq<uint8>, seq<SubNode>>, prefix: seq<uint8>, l0: seq<uint8>, rest: seq<seq<uint8>>)
    requires |rest| >= 1 && Live(nodes, prefix + l0) && Reachable(nodes, prefix + l0 + [SLASH], rest)
    ensures Reachable(nodes, prefix, [l0] + rest)
  {
    var levels := [l0] + rest;
    var pre := prefix + l0 + [SLASH];
    assert levels[..1] == [l0];
    forall i | 1 <= i < |levels|
      ensures Live(nodes, prefix + Join(levels[..i]))
    {
      if i >= 2 {
        JoinCons(levels, i);
        assert levels[1..i] == rest[..i - 1];
        assert prefix + Join(levels[..i]) == pre + Join(rest[..i - 1]);
      }
    }
  }

  /** Every filter looked up matches the topic level by level, and all of its
      shorter prefixes have subscribers: a filter of depth k >= 2 is consulted
      only if its first k - 1 levels are subscribed filters, and '#' is only
      ever a last level. */
  lemma {:induction false} LookupsSound(nodes: map<seq<uint8>, seq<SubNode>>, toks: seq<seq<uint8>>,
                                        prefix: seq<uint8>, k: seq<uint8>)
    returns (levels: seq<seq<uint8>>)
    requires k in Lookups(nodes, toks, prefix)
    ensures Matches(toks, levels) && Reachable(nodes, prefix, levels)
    ensures k == prefix + Join(levels)
    decreases |toks|
  {
    var lit := prefix + toks[0];
    var plus := prefix + [PLUS];
    var hash := prefix + [HASH];
    var a := if Live(nodes, lit) then Lookups(nodes, toks[1..], lit + [SLASH]) else [];
    var b := if Live(nodes, plus) then Lookups(nodes, toks[1..], plus + [SLASH]) else [];
    assert Lookups(nodes, toks, prefix) == [lit] + a + [plus] + b + [hash];
    if k == lit {
      levels := [toks[0]];
    } else if k == plus {
      levels := [[PLUS]];
    } else if k == hash {
      levels := [[HASH]];
    } else if k in a {
      var rest := LookupsSound(nodes, toks[1..], lit + [SLASH], k);
      ConsLevel(nodes, toks, prefix, toks[0], rest);
      levels := [toks[0]] + rest;
    } else {
      assert k in b;
      var rest := LookupsSound(nodes, toks[1..], plus + [SLASH], k);
      ConsLevel(nodes, toks, prefix, [PLUS], rest);
      levels := [[PLUS]] + rest;
    }
  }

  // ---------------------------------------------- the index and its methods

  /** The first entry with the same client id, by a scan of the list. */
  method FindSame(subs: seq<SubNode>, heap: map<Ref, Client>, r: Ref) returns (i: Option<nat>)
    ensures i == FirstSame(subs, heap, r)
  {
    var j := 0;
    while j < |subs|
      invariant 0 <= j <= |subs|
      invariant FirstSame(subs, heap, r) == OffsetBy(FirstSame(subs[j..], heap, r), j)
    {
      if SameClient(heap, subs[j].client, r) {
        assert FirstSame(subs[j..], heap, r) == Some(0);
        return Some(j);
      }
      assert subs[j..][1..] == subs[j + 1..];
      j := j + 1;
    }
    assert subs[j..] == [];
    return None;
  }

  function OffsetBy(i: Option<nat>, d: nat): Option<nat>
  {
    match i
    case None => None
    case Some(k) => Some(k + d)
  }

  /** g_subtree_head: filter string to subscriber list, first subscriber first. */
  class Index {
    var nodes: map<seq<uint8>, seq<SubNode>>

    constructor ()
      ensures nodes == map[]
    {
      nodes := map[];
    }

    /** iotbroker_subtree_sub. */
    method Subscribe(topic: seq<uint8>, qos: uint8, r: Ref, heap: map<Ref, Client>)
      modifies this
      ensures nodes == Subscribed(old(nodes), heap, topic, qos, r)
    {
      if topic !in nodes {
        nodes := nodes[topic := [SubNode(r, qos)]];
        return;
      }
      var subs := nodes[topic];
      var i := FindSame(subs, heap, r);
      if i.Some? {
        nodes := nodes[topic := subs[i.value := subs[i.value].(qos := qos)]];
      } else {
        nodes := nodes[topic := [SubNode(r, qos)] + subs];
      }
    }

    /** iotbroker_subtree_unsub. */
    method Unsubscribe(topic: seq<uint8>, r: Ref, heap: map<Ref, Client>)
      modifies this
      ensures nodes == Unsubscribed(old(nodes), heap, topic, r)
    {
      if topic !in nodes {
        return;
      }
      var subs := nodes[topic];
      var i := FindSame(subs, heap, r);
      if i.Some? {
        subs := subs[..i.value] + subs[i.value + 1..];
      }
      if subs == [] {
        nodes := nodes - {topic};
      } else {
        nodes := nodes[topic := subs];
      }
    }

    /** insert_message_to_subtree: FAILED for a filter without subscribers;
        otherwise one entry per subscriber and one reference each. */
    method Deliver(key: seq<uint8>, tbl: Table, reg: Registry, h: Handle, pubQos: uint8) returns (ret: int)
      requires tbl.Valid()
      modifies tbl`heap, reg`records
      ensures ret == (if Live(nodes, key) then SUCESS else FAILED)
      ensures Stores(tbl.heap, reg.records) ==
        if Live(nodes, key) then Delivered(old(Stores(tbl.heap, reg.records)), nodes[key], h, pubQos)
        else old(Stores(tbl.heap, reg.records))
      ensures tbl.Valid()
    {
      if key !in nodes {
        return FAILED;
      }
      var subs := nodes[key];
      if |subs| == 0 {
        return FAILED;
      }
      ghost var st0 := Stores(tbl.heap, reg.records);
      var i := 0;
      while i < |subs|
        invariant 0 <= i <= |subs|
        invariant tbl.Valid()
        invariant Stores(tbl.heap, reg.records) == Delivered(st0, subs[..i], h, pubQos)
      {
        var s := subs[i];
        if s.client in tbl.heap {
          tbl.Enqueue(s.client, Entry(pubQos, s, h));
          reg.Reference(h);
        }
        assert subs[..i + 1] == subs[..i] + [s];
        DeliveredSnoc(st0, subs[..i], s, h, pubQos);
        i := i + 1;
      }
      assert subs[..i] == subs;
      return SUCESS;
    }

    /** insert_pub_message, with the candidate prefix passed down as a value. */
    method PubFrom(toks: seq<seq<uint8>>, prefix: seq<uint8>, tbl: Table, reg: Registry, h: Handle, pubQos: uint8)
      requires tbl.Valid()
      modifies tbl`heap, reg`records
      ensures Stores(tbl.heap, reg.records) ==
        DeliverKeys(old(Stores(tbl.heap, reg.records)), nodes, Lookups(nodes, toks, prefix), h, pubQos)
      ensures tbl.Valid()
      decreases |toks|
    {
      if toks == [] {
        return;
      }
      ghost var st0 := Stores(tbl.heap, reg.records);
      var lit := prefix + toks[0];
      var plus := prefix + [PLUS];
      var hash := prefix + [HASH];
      ghost var a := if Live(nodes, lit) then Lookups(nodes, toks[1..], lit + [SLASH]) else [];
      ghost var b := if Live(nodes, plus) then Lookups(nodes, toks[1..], plus + [SLASH]) else [];

      var ret := Deliver(lit, tbl, reg, h, pubQos);
      assert Stores(tbl.heap, reg.records) == DeliverKeys(st0, nodes, [lit], h, pubQos);
      if ret == SUCESS {
        PubFrom(toks[1..], lit + [SLASH], tbl, reg, h, pubQos);
      }
      ghost var st1 := Stores(tbl.heap, reg.records);
      DeliverKeysAppend(st0, nodes, [lit], a, h, pubQos);
      assert st1 == DeliverKeys(st0, nodes, [lit] + a, h, pubQos);

      ret := Deliver(plus, tbl, reg, h, pubQos);
      assert Stores(tbl.heap, reg.records) == DeliverKeys(st1, nodes, [plus], h, pubQos);
      if ret == SUCESS {
        PubFrom(toks[1..], plus + [SLASH], tbl, reg, h, pubQos);
      }
      ghost var st2 := Stores(tbl.heap, reg.records);
      DeliverKeysAppend(st1, nodes, [plus], b, h, pubQos);
      DeliverKeysAppend(st0, nodes, [lit] + a, [plus] + b, h, pubQos);
      assert [lit] + a + ([plus] + b) == [lit] + a + [plus] + b;
      assert st2 == DeliverKeys(st0, nodes, [lit] + a + [plus] + b, h, pubQos);

      ret := Deliver(hash, tbl, reg, h, pubQos);
      assert Stores(tbl.heap, reg.records) == DeliverKeys(st2, nodes, [hash], h, pubQos);
      DeliverKeysAppend(st0, nodes, [lit] + a + [plus] + b, [hash], h, pubQos);
    }

    /** iotbroker_subtree_pub. */
    method Pub(tbl: Table, reg: Registry, h: Handle)
      requires tbl.Valid()
      modifies tbl`heap, reg`records
      ensures Stores(tbl.heap, reg.records) == Published(old(Stores(tbl.heap, reg.records)), nodes, h)
      ensures tbl.Valid()
    {
      if h !in reg.records {
        return;
      }
      var m := reg.records[h].msg;
      var toks := GetTopicTokens(m.topic);
      PubFrom(toks, [], tbl, reg, h, m.qos);
    }
  }

  // ------------------------------------------ scenarios against MQTT 3.1.1

  const A: uint8 := 0x61  // 'a'
  const B: uint8 := 0x62  // 'b'

  lemma TokensAB()
    ensures Tokens([A, SLASH, B]) == [[A], [B]]
  {
    TokensOfJoin([[A], [B]]);
    assert Join([[A], [B]]) == [A, SLASH, B];
  }

  lemma TokensA()
    ensures Tokens([A]) == [[A]]
  {
  }

  /** The candidates for a topic of two levels when neither top-level
      candidate has subscribers. */
  lemma LookupsTwoLevelsPruned(nodes: map<seq<uint8>, seq<SubNode>>, t0: seq<uint8>, t1: seq<uint8>)
    requires !Live(nodes, t0) && !Live(nodes, [PLUS])
    ensures Lookups(nodes, [t0, t1], []) == [t0, [PLUS], [HASH]]
  {
    assert [] + t0 == t0;
    assert [] + [PLUS] == [PLUS];
    assert [] + [HASH] == [HASH];
  }

  /** A subscriber of "a/b" alone never gets a message on "a/b": the lookup
      of "a/b" happens only under a subscribed "a" (section 4.7 of MQTT
      3.1.1 says "a/b" matches). */
  lemma DeepFilterAloneMisses(st: Stores, h: Handle, subs: seq<SubNode>)
    requires h in st.records && st.records[h].msg.topic == [A, SLASH, B]
    ensures Lookups(map[[A, SLASH, B] := subs], Tokens([A, SLASH, B]), []) == [[A], [PLUS], [HASH]]
    ensures Published(st, map[[A, SLASH, B] := subs], h) == st
  {
    var nodes := map[[A, SLASH, B] := subs];
    TokensAB();
    CStrOfNulFree([A, SLASH, B]);
    assert [A] != [A, SLASH, B] && [PLUS] != [A, SLASH, B] && [HASH] != [A, SLASH, B];
    LookupsTwoLevelsPruned(nodes, [A], [B]);
    var q := st.records[h].msg.qos;
    var k3: seq<seq<uint8>> := [[HASH]];
    var k2: seq<seq<uint8>> := [[PLUS]] + k3;
    var k1: seq<seq<uint8>> := [[A]] + k2;
    assert k3[1..] == [];
    assert DeliverKeys(st, nodes, k3, h, q) == st;
    assert k2[1..] == k3;
    assert DeliverKeys(st, nodes, k2, h, q) == st;
    assert k1[1..] == k2;
    assert DeliverKeys(st, nodes, k1, h, q) == st;
    assert k1 == [[A], [PLUS], [HASH]];
  }

  /** A subscriber of "a" gets the messages on "a/b" (section 4.7 of MQTT
      3.1.1 says "a" does not match "a/b"). */
  lemma ParentFilterGetsChild(subs: seq<SubNode>)
    requires subs != []
    ensures var nodes := map[[A] := subs];
      [A] in Lookups(nodes, Tokens([A, SLASH, B]), []) && Live(nodes, [A])
  {
    TokensAB();
    var nodes := map[[A] := subs];
    assert [] + [A] == [A];
    assert Lookups(nodes, [[A], [B]], [])[0] == [A];
  }

  /** "a/#" is not consulted for a message on "a" (section 4.7.1.2 of MQTT
      3.1.1 says it matches the parent level). */
  lemma HashSkipsParent(subs: seq<SubNode>)
    ensures Lookups(map[[A, SLASH, HASH] := subs], Tokens([A]), []) == [[A], [PLUS], [HASH]]
  {
    TokensA();
    assert [] + [A] == [A];
    assert [] + [PLUS] == [PLUS];
    assert [] + [HASH] == [HASH];
    assert [A] != [A, SLASH, HASH] && [PLUS] != [A, SLASH, HASH];
  }

  // ------------------------------------------- the topic buffer as written

  /** strlen on a fixed buffer: None when no NUL lies inside it, so the read
      runs past the allocation. */
  function BufLen(buf: seq<uint8>): (r: Option<nat>)
    ensures r.Some? ==> r.value < |buf| && buf[r.value] == NUL && NUL !in buf[..r.value]
  {
    if NUL in buf then Some(|CStr(buf)|) else None
  }

  /** The string HASH_FIND_STR looks up in the buffer. */
  function BufKey(buf: seq<uint8>): Option<seq<uint8>>
  {
    if NUL in buf then Some(CStr(buf)) else None
  }

  /** `buf[i] = b`; None when `i` is outside the allocation. */
  function WriteAt(buf: seq<uint8>, i: nat, b: uint8): (r: Option<seq<uint8>>)
    ensures r.Some? <==> i < |buf|
    ensures r.Some? ==> r.value == buf[i := b]
  {
    if i < |buf| then Some(buf[i := b]) else None
  }

  /** memcpy(buf + i, bytes, |bytes|); None past the allocation. */
  function CopyAt(buf: seq<uint8>, i: nat, bytes: seq<uint8>): (r: Option<seq<uint8>>)
    ensures r.Some? <==> i + |bytes| <= |buf|
    ensures r.Some? ==> (|r.value| == |buf| && r.value[i..i + |bytes|] == bytes
      && r.value[..i] == buf[..i] && r.value[i + |bytes|..] == buf[i + |bytes|..])
  {
    if i + |bytes| <= |buf| then Some(buf[..i] + bytes + buf[i + |bytes|..]) else None
  }

  /** memset(buf + i, 0, n); None past the allocation. */
  function ZeroAt(buf: seq<uint8>, i: nat, n: nat): (r: Option<seq<uint8>>)
    ensures r.Some? <==> i + n <= |buf|
    ensures r.Some? ==> (|r.value| == |buf| && (forall j :: i <= j < i + n ==> r.value[j] == NUL)
      && r.value[..i] == buf[..i] && r.value[i + n..] == buf[i + n..])
  {
    if i + n <= |buf| then Some(buf[..i] + seq(n, _ => NUL) + buf[i + n..]) else None
  }

  lemma LenAt(s: seq<uint8>, rest: seq<uint8>)
    requires NUL !in s
    ensures BufLen(s + [NUL] + rest) == Some(|s|)
  {
    CStrPrefix(s, rest);
  }

  lemma KeyPastEnd(s: seq<uint8>)
    requires NUL !in s
    ensures BufKey(s).None?
  {
  }

  lemma KeyAt(s: seq<uint8>, rest: seq<uint8>)
    requires NUL !in s
    ensures BufKey(s + [NUL] + rest) == Some(s)
  {
    CStrPrefix(s, rest);
  }

  /** insert_pub_message exactly as written, on the shared topic buffer: the
      filters it looks up, in order, and the buffer it leaves behind; None
      when it reads or writes outside the buffer. */
  function InsertPubAsWritten(nodes: map<seq<uint8>, seq<SubNode>>, toks: seq<seq<uint8>>, buf: seq<uint8>)
    : Option<(seq<seq<uint8>>, seq<uint8>)>
    decreases |toks|, 1
  {
    if toks == [] then Some(([], buf))
    else
      var len :- BufLen(buf);
      var ra :- LiteralStep(nodes, toks, buf, len);
      var rb :- PlusStep(nodes, toks, ra.1, len);
      var rc :- HashStep(rb.1, len);
      Some((ra.0 + rb.0 + rc.0, rc.1))
  }

  /** Step 1: the level copied in at `len` and looked up; if it has
      subscribers, a '/' after it and the deeper levels. Then the level is
      cleared, but not the '/' after it. */
  function LiteralStep(nodes: map<seq<uint8>, seq<SubNode>>, toks: seq<seq<uint8>>, buf: seq<uint8>, len: nat)
    : Option<(seq<seq<uint8>>, seq<uint8>)>
    requires toks != []
    decreases |toks|, 0
  {
    var tok := toks[0];
    var b1 :- CopyAt(buf, len, tok);
    var k1 :- BufKey(b1);
    var ra :- if Live(nodes, k1) then
        (var b' :- WriteAt(b1, len + |tok|, SLASH); InsertPubAsWritten(nodes, toks[1..], b'))
      else Some(([], b1));
    var b2 :- ZeroAt(ra.1, len, |tok|);
    Some(([k1] + ra.0, b2))
  }

  /** Step 2: '+' at `len` looked up; if it has subscribers, a '/' after it
      and the deeper levels, and the '/' cleared again. Then the '+' is
      cleared. */
  function PlusStep(nodes: map<seq<uint8>, seq<SubNode>>, toks: seq<seq<uint8>>, buf: seq<uint8>, len: nat)
    : Option<(seq<seq<uint8>>, seq<uint8>)>
    requires toks != []
    decreases |toks|, 0
  {
    var b3 :- WriteAt(buf, len, PLUS);
    var k2 :- BufKey(b3);
    var rb :- if Live(nodes, k2) then
        (var b' :- WriteAt(b3, len + 1, SLASH);
         var rr :- InsertPubAsWritten(nodes, toks[1..], b');
         var b'' :- WriteAt(rr.1, len + 1, NUL);
         Some((rr.0, b'')))
      else Some(([], b3));
    var b4 :- WriteAt(rb.1, len, NUL);
    Some(([k2] + rb.0, b4))
  }

  /** Step 3: '#' at `len` looked up, then cleared. */
  function HashStep(buf: seq<uint8>, len: nat): Option<(seq<seq<uint8>>, seq<uint8>)>
  {
    var b5 :- WriteAt(buf, len, HASH);
    var k3 :- BufKey(b5);
    var b6 :- WriteAt(b5, len, NUL);
    Some(([k3], b6))
  }

  /** iotbroker_subtree_pub as written: a zeroed buffer of strlen(topic) + 1
      bytes. */
  function PubLookupsAsWritten(nodes: map<seq<uint8>, seq<SubNode>>, topic: seq<uint8>): Option<seq<seq<uint8>>>
  {
    var t := CStr(topic);
    var r :- InsertPubAsWritten(nodes, Tokens(t), seq(|t| + 1, _ => NUL));
    Some(r.0)
  }

  // One-step unfoldings of the as-written buffer walk.

  lemma LiteralStepDead(nodes: map<seq<uint8>, seq<SubNode>>, toks: seq<seq<uint8>>, buf: seq<uint8>, len: nat,
                        b1: seq<uint8>, k1: seq<uint8>, b2: seq<uint8>)
    requires toks != [] && CopyAt(buf, len, toks[0]) == Some(b1)
    requires BufKey(b1) == Some(k1) && !Live(nodes, k1)
    requires ZeroAt(b1, len, |toks[0]|) == Some(b2)
    ensures LiteralStep(nodes, toks, buf, len) == Some(([k1], b2))
  {
    assert [k1] + [] == [k1];
  }

  lemma LiteralStepLive(nodes: map<seq<uint8>, seq<SubNode>>, toks: seq<seq<uint8>>, buf: seq<uint8>, len: nat,
                        b1: seq<uint8>, k1: seq<uint8>, b1': seq<uint8>, deeper: seq<seq<uint8>>,
                        bd: seq<uint8>, b2: seq<uint8>)
    requires toks != [] && CopyAt(buf, len, toks[0]) == Some(b1)
    requires BufKey(b1) == Some(k1) && Live(nodes, k1)
    requires WriteAt(b1, len + |toks[0]|, SLASH) == Some(b1')
    requires InsertPubAsWritten(nodes, toks[1..], b1') == Some((deeper, bd))
    requires ZeroAt(bd, len, |toks[0]|) == Some(b2)
    ensures LiteralStep(nodes, toks, buf, len) == Some(([k1] + deeper, b2))
  {
  }

  lemma LiteralStepLiveFails(nodes: map<seq<uint8>, seq<SubNode>>, toks: seq<seq<uint8>>, buf: seq<uint8>, len: nat,
                             b1: seq<uint8>, k1: seq<uint8>, b1': seq<uint8>)
    requires toks != [] && CopyAt(buf, len, toks[0]) == Some(b1)
    requires BufKey(b1) == Some(k1) && Live(nodes, k1)
    requires WriteAt(b1, len + |toks[0]|, SLASH) == Some(b1')
    requires InsertPubAsWritten(nodes, toks[1..], b1').None?
    ensures LiteralStep(nodes, toks, buf, len).None?
  {
  }

  lemma PlusStepDead(nodes: map<seq<uint8>, seq<SubNode>>, toks: seq<seq<uint8>>, buf: seq<uint8>, len: nat,
                     b3: seq<uint8>, k2: seq<uint8>, b4: seq<uint8>)
    requires toks != [] && WriteAt(buf, len, PLUS) == Some(b3)
    requires BufKey(b3) == Some(k2) && !Live(nodes, k2)
    requires WriteAt(b3, len, NUL) == Some(b4)
    ensures PlusStep(nodes, toks, buf, len) == Some(([k2], b4))
  {
    assert [k2] + [] == [k2];
  }

  lemma PlusStepUnterminated(nodes: map<seq<uint8>, seq<SubNode>>, toks: seq<seq<uint8>>, buf: seq<uint8>, len: nat,
                             b3: seq<uint8>)
    requires toks != [] && WriteAt(buf, len, PLUS) == Some(b3)
    requires BufKey(b3).None?
    ensures PlusStep(nodes, toks, buf, len).None?
  {
  }

  lemma HashStepOk(buf: seq<uint8>, len: nat, b5: seq<uint8>, k3: seq<uint8>, b6: seq<uint8>)
    requires WriteAt(buf, len, HASH) == Some(b5) && BufKey(b5) == Some(k3)
    requires WriteAt(b5, len, NUL) == Some(b6)
    ensures HashStep(buf, len) == Some(([k3], b6))
  {
  }

  lemma LevelOk(nodes: map<seq<uint8>, seq<SubNode>>, toks: seq<seq<uint8>>, buf: seq<uint8>, len: nat,
                ra: (seq<seq<uint8>>, seq<uint8>), rb: (seq<seq<uint8>>, seq<uint8>), rc: (seq<seq<uint8>>, seq<uint8>))
    requires toks != [] && BufLen(buf) == Some(len)
    requires LiteralStep(nodes, toks, buf, len) == Some(ra)
    requires PlusStep(nodes, toks, ra.1, len) == Some(rb)
    requires HashStep(rb.1, len) == Some(rc)
    ensures InsertPubAsWritten(nodes, toks, buf) == Some((ra.0 + rb.0 + rc.0, rc.1))
  {
  }

  /** With subscribers on "a" and "#", a message on "a/b" is looked up as
      "+/" and "#/" at the top level instead of "+" and "#": the stray '/'
      left after "a" keeps the "#" subscriber, whose filter matches, from
      getting it. The intended lookups do include "#". */
  lemma StraySlashMissesHash(s1: seq<SubNode>, s2: seq<SubNode>)
    requires s1 != [] && s2 != []
    ensures var nodes := map[[A] := s1, [HASH] := s2];
      PubLookupsAsWritten(nodes, [A, SLASH, B]) ==
        Some([[A], [A, SLASH, B], [A, SLASH, PLUS], [A, SLASH, HASH], [PLUS, SLASH], [HASH, SLASH]]) &&
      [HASH] in Lookups(nodes, Tokens([A, SLASH, B]), []) &&
      Matches(Tokens([A, SLASH, B]), [[HASH]])
  {
    var nodes := map[[A] := s1, [HASH] := s2];
    TokensAB();
    CStrOfNulFree([A, SLASH, B]);
    assert seq(4, _ => NUL) == [0, 0, 0, 0];
    assert [A, SLASH, B] != [A] && [A, SLASH, B] != [HASH];
    assert [A, SLASH, PLUS] != [A] && [A, SLASH, PLUS] != [HASH];
    assert [PLUS, SLASH] != [A] && [PLUS, SLASH] != [HASH];
    StraySlashTop(nodes);
    HashLookedUp(nodes, [A], [B]);
  }

  /** The stray '/' matters only after a one-byte level: with subscribers
      on "ab" and "#", a message on "ab/b" leaves the zeroed second byte of
      "ab" in front of the '/', so the top-level keys are "+" and "#" and
      the "#" subscriber is reached. */
  lemma LongLevelKeepsHash(s1: seq<SubNode>, s2: seq<SubNode>)
    requires s1 != [] && s2 != []
    ensures var nodes := map[[A, B] := s1, [HASH] := s2];
      PubLookupsAsWritten(nodes, [A, B, SLASH, B]) ==
        Some([[A, B], [A, B, SLASH, B], [A, B, SLASH, PLUS], [A, B, SLASH, HASH], [PLUS], [HASH]])
  {
    var nodes := map[[A, B] := s1, [HASH] := s2];
    TokensOfJoin([[A, B], [B]]);
    assert Join([[A, B], [B]]) == [A, B, SLASH, B];
    CStrOfNulFree([A, B, SLASH, B]);
    assert seq(5, _ => NUL) == [0, 0, 0, 0, 0];
    assert [A, B, SLASH, B] != [A, B] && [A, B, SLASH, B] != [HASH];
    assert [A, B, SLASH, PLUS] != [A, B] && [A, B, SLASH, PLUS] != [HASH];
    assert [PLUS] != [A, B] && [PLUS] != [HASH];
    LongLevelTop(nodes);
  }

  /** The top level of "ab/b" when only "ab" below the top has subscribers. */
  lemma LongLevelTop(nodes: map<seq<uint8>, seq<SubNode>>)
    requires Live(nodes, [A, B]) && !Live(nodes, [PLUS])
    requires !Live(nodes, [A, B, SLASH, B]) && !Live(nodes, [A, B, SLASH, PLUS])
    ensures InsertPubAsWritten(nodes, [[A, B], [B]], [0, 0, 0, 0, 0]) ==
      Some(([[A, B], [A, B, SLASH, B], [A, B, SLASH, PLUS], [A, B, SLASH, HASH], [PLUS], [HASH]], [0, 0, SLASH, 0, 0]))
  {
    var z: seq<uint8> := [0, 0, 0, 0, 0];
    var ra: seq<seq<uint8>> := [[A, B]] + [[A, B, SLASH, B], [A, B, SLASH, PLUS], [A, B, SLASH, HASH]];
    var stray: seq<uint8> := [0, 0, SLASH, 0, 0];
    assert BufLen(z) == Some(0) by {
      assert z == [] + [NUL] + [0, 0, 0, 0];
      LenAt([], [0, 0, 0, 0]);
    }
    LongLevelLiteral(nodes);
    LongLevelPlus(nodes);
    LongLevelHash();
    LevelOk(nodes, [[A, B], [B]], z, 0, (ra, stray), ([[PLUS]], stray), ([[HASH]], stray));
    assert ra + [[PLUS]] + [[HASH]] ==
      [[A, B], [A, B, SLASH, B], [A, B, SLASH, PLUS], [A, B, SLASH, HASH], [PLUS], [HASH]];
  }

  /** Literal "ab" is live, so "ab/" and the level below are looked up;
      then only the two bytes of "ab" are zeroed. */
  lemma LongLevelLiteral(nodes: map<seq<uint8>, seq<SubNode>>)
    requires Live(nodes, [A, B])
    requires !Live(nodes, [A, B, SLASH, B]) && !Live(nodes, [A, B, SLASH, PLUS])
    ensures LiteralStep(nodes, [[A, B], [B]], [0, 0, 0, 0, 0], 0) ==
      Some(([[A, B]] + [[A, B, SLASH, B], [A, B, SLASH, PLUS], [A, B, SLASH, HASH]], [0, 0, SLASH, 0, 0]))
  {
    var toks: seq<seq<uint8>> := [[A, B], [B]];
    var z: seq<uint8> := [0, 0, 0, 0, 0];
    var inner: seq<seq<uint8>> := [[A, B, SLASH, B], [A, B, SLASH, PLUS], [A, B, SLASH, HASH]];
    var abSlash: seq<uint8> := [A, B, SLASH, 0, 0];
    var stray: seq<uint8> := [0, 0, SLASH, 0, 0];
    var b1: seq<uint8> := [A, B, 0, 0, 0];
    assert z[..0] + [A, B] + z[2..] == b1;
    assert b1 == [A, B] + [NUL] + [0, 0];
    KeyAt([A, B], [0, 0]);
    assert b1[2 := SLASH] == abSlash;
    assert InsertPubAsWritten(nodes, toks[1..], abSlash) == Some((inner, abSlash)) by {
      LongLevelInner(nodes);
      assert toks[1..] == [[B]];
    }
    assert abSlash[..0] + seq(2, _ => NUL) + abSlash[2..] == stray;
    LiteralStepLive(nodes, toks, z, 0, b1, [A, B], abSlash, inner, abSlash, stray);
  }

  /** '+' at 0: the zeroed 'b' ends the key before the stray '/'. */
  lemma LongLevelPlus(nodes: map<seq<uint8>, seq<SubNode>>)
    requires !Live(nodes, [PLUS])
    ensures PlusStep(nodes, [[A, B], [B]], [0, 0, SLASH, 0, 0], 0) == Some(([[PLUS]], [0, 0, SLASH, 0, 0]))
  {
    var stray: seq<uint8> := [0, 0, SLASH, 0, 0];
    var b3: seq<uint8> := [PLUS, 0, SLASH, 0, 0];
    assert stray[0 := PLUS] == b3;
    assert b3[0 := NUL] == stray;
    assert b3 == [PLUS] + [NUL] + [SLASH, 0, 0];
    KeyAt([PLUS], [SLASH, 0, 0]);
    PlusStepDead(nodes, [[A, B], [B]], stray, 0, b3, [PLUS], stray);
  }

  lemma LongLevelHash()
    ensures HashStep([0, 0, SLASH, 0, 0], 0) == Some(([[HASH]], [0, 0, SLASH, 0, 0]))
  {
    var stray: seq<uint8> := [0, 0, SLASH, 0, 0];
    var b5: seq<uint8> := [HASH, 0, SLASH, 0, 0];
    assert stray[0 := HASH] == b5;
    assert b5[0 := NUL] == stray;
    assert b5 == [HASH] + [NUL] + [SLASH, 0, 0];
    KeyAt([HASH], [SLASH, 0, 0]);
    HashStepOk(stray, 0, b5, [HASH], stray);
  }

  /** The second level of "ab/b", under "ab/": nothing below has subscribers. */
  lemma LongLevelInner(nodes: map<seq<uint8>, seq<SubNode>>)
    requires !Live(nodes, [A, B, SLASH, B]) && !Live(nodes, [A, B, SLASH, PLUS])
    ensures InsertPubAsWritten(nodes, [[B]], [A, B, SLASH, 0, 0])
         == Some(([[A, B, SLASH, B], [A, B, SLASH, PLUS], [A, B, SLASH, HASH]], [A, B, SLASH, 0, 0]))
  {
    var toks: seq<seq<uint8>> := [[B]];
    var buf: seq<uint8> := [A, B, SLASH, 0, 0];
    assert buf == [A, B, SLASH] + [NUL] + [0];
    LenAt([A, B, SLASH], [0]);
    var b1: seq<uint8> := [A, B, SLASH, B, 0];
    assert buf[..3] + [B] + buf[4..] == b1;
    assert b1 == [A, B, SLASH, B] + [NUL] + [];
    KeyAt([A, B, SLASH, B], []);
    assert b1[..3] + seq(1, _ => NUL) + b1[4..] == buf;
    LiteralStepDead(nodes, toks, buf, 3, b1, [A, B, SLASH, B], buf);
    var b3: seq<uint8> := [A, B, SLASH, PLUS, 0];
    assert buf[3 := PLUS] == b3;
    assert b3[3 := NUL] == buf;
    assert b3 == [A, B, SLASH, PLUS] + [NUL] + [];
    KeyAt([A, B, SLASH, PLUS], []);
    PlusStepDead(nodes, toks, buf, 3, b3, [A, B, SLASH, PLUS], buf);
    var b5: seq<uint8> := [A, B, SLASH, HASH, 0];
    assert buf[3 := HASH] == b5;
    assert b5[3 := NUL] == buf;
    assert b5 == [A, B, SLASH, HASH] + [NUL] + [];
    KeyAt([A, B, SLASH, HASH], []);
    HashStepOk(buf, 3, b5, [A, B, SLASH, HASH], buf);
    LevelOk(nodes, toks, buf, 3, ([[A, B, SLASH, B]], buf), ([[A, B, SLASH, PLUS]], buf), ([[A, B, SLASH, HASH]], buf));
    assert [[A, B, SLASH, B]] + [[A, B, SLASH, PLUS]] + [[A, B, SLASH, HASH]]
        == [[A, B, SLASH, B], [A, B, SLASH, PLUS], [A, B, SLASH, HASH]];
  }

  /** "#" is always among the intended top-level candidates. */
  lemma HashLookedUp(nodes: map<seq<uint8>, seq<SubNode>>, t0: seq<uint8>, t1: seq<uint8>)
    ensures [HASH] in Lookups(nodes, [t0, t1], [])
  {
    var l := Lookups(nodes, [t0, t1], []);
    assert [] + [HASH] == [HASH];
    assert l[|l| - 1] == [HASH];
  }

  /** The top level of "a/b" when only "a" below the top has subscribers. */
  lemma StraySlashTop(nodes: map<seq<uint8>, seq<SubNode>>)
    requires Live(nodes, [A]) && !Live(nodes, [PLUS, SLASH])
    requires !Live(nodes, [A, SLASH, B]) && !Live(nodes, [A, SLASH, PLUS])
    ensures InsertPubAsWritten(nodes, [[A], [B]], [0, 0, 0, 0]) ==
      Some(([[A], [A, SLASH, B], [A, SLASH, PLUS], [A, SLASH, HASH], [PLUS, SLASH], [HASH, SLASH]], [0, SLASH, 0, 0]))
  {
    var ra: seq<seq<uint8>> := [[A]] + [[A, SLASH, B], [A, SLASH, PLUS], [A, SLASH, HASH]];
    var stray: seq<uint8> := [0, SLASH, 0, 0];
    assert BufLen([0, 0, 0, 0]) == Some(0) by {
      assert [0, 0, 0, 0] == [] + [NUL] + [0, 0, 0];
      LenAt([], [0, 0, 0]);
    }
    StraySlashTopLiteral(nodes);
    StraySlashTopPlus(nodes);
    StraySlashTopHash();
    LevelOk(nodes, [[A], [B]], [0, 0, 0, 0], 0, (ra, stray), ([[PLUS, SLASH]], stray), ([[HASH, SLASH]], stray));
    assert ra + [[PLUS, SLASH]] + [[HASH, SLASH]] ==
      [[A], [A, SLASH, B], [A, SLASH, PLUS], [A, SLASH, HASH], [PLUS, SLASH], [HASH, SLASH]];
  }

  lemma StraySlashTopLiteral(nodes: map<seq<uint8>, seq<SubNode>>)
    requires Live(nodes, [A])
    requires !Live(nodes, [A, SLASH, B]) && !Live(nodes, [A, SLASH, PLUS])
    ensures LiteralStep(nodes, [[A], [B]], [0, 0, 0, 0], 0) ==
      Some(([[A]] + [[A, SLASH, B], [A, SLASH, PLUS], [A, SLASH, HASH]], [0, SLASH, 0, 0]))
  {
    var toks: seq<seq<uint8>> := [[A], [B]];
    var inner: seq<seq<uint8>> := [[A, SLASH, B], [A, SLASH, PLUS], [A, SLASH, HASH]];
    var aSlash: seq<uint8> := [A, SLASH, 0, 0];
    assert InsertPubAsWritten(nodes, toks[1..], aSlash) == Some((inner, aSlash)) by {
      StraySlashInner(nodes);
      assert toks[1..] == [[B]];
    }
    StraySlashTopBuffers();
    LiteralStepLive(nodes, toks, [0, 0, 0, 0], 0, [A, 0, 0, 0], [A], aSlash, inner, aSlash, [0, SLASH, 0, 0]);
  }

  /** The buffer states of the top-level literal step for "a/b". */
  lemma StraySlashTopBuffers()
    ensures CopyAt([0, 0, 0, 0], 0, [A]) == Some([A, 0, 0, 0])
    ensures BufKey([A, 0, 0, 0]) == Some([A])
    ensures WriteAt([A, 0, 0, 0], 1, SLASH) == Some([A, SLASH, 0, 0])
    ensures ZeroAt([A, SLASH, 0, 0], 0, 1) == Some([0, SLASH, 0, 0])
  {
    var z: seq<uint8> := [0, 0, 0, 0];
    var b1: seq<uint8> := [A, 0, 0, 0];
    var aSlash: seq<uint8> := [A, SLASH, 0, 0];
    var stray: seq<uint8> := [0, SLASH, 0, 0];
    assert z[..0] + [A] + z[1..] == b1;
    assert b1 == [A] + [NUL] + [0, 0];
    KeyAt([A], [0, 0]);
    assert b1[1 := SLASH] == aSlash;
    assert aSlash[..0] + seq(1, _ => NUL) + aSlash[1..] == stray;
  }

  lemma StraySlashTopPlus(nodes: map<seq<uint8>, seq<SubNode>>)
    requires !Live(nodes, [PLUS, SLASH])
    ensures PlusStep(nodes, [[A], [B]], [0, SLASH, 0, 0], 0) == Some(([[PLUS, SLASH]], [0, SLASH, 0, 0]))
  {
    var stray: seq<uint8> := [0, SLASH, 0, 0];
    var b3: seq<uint8> := [PLUS, SLASH, 0, 0];
    assert stray[0 := PLUS] == b3;
    assert b3[0 := NUL] == stray;
    assert b3 == [PLUS, SLASH] + [NUL] + [0];
    KeyAt([PLUS, SLASH], [0]);
    PlusStepDead(nodes, [[A], [B]], stray, 0, b3, [PLUS, SLASH], stray);
  }

  lemma StraySlashTopHash()
    ensures HashStep([0, SLASH, 0, 0], 0) == Some(([[HASH, SLASH]], [0, SLASH, 0, 0]))
  {
    var stray: seq<uint8> := [0, SLASH, 0, 0];
    var b5: seq<uint8> := [HASH, SLASH, 0, 0];
    assert stray[0 := HASH] == b5;
    assert b5[0 := NUL] == stray;
    assert b5 == [HASH, SLASH] + [NUL] + [0];
    KeyAt([HASH, SLASH], [0]);
    HashStepOk(stray, 0, b5, [HASH, SLASH], stray);
  }

  /** The second level of "a/b", under "a/": nothing below has subscribers. */
  lemma StraySlashInner(nodes: map<seq<uint8>, seq<SubNode>>)
    requires !Live(nodes, [A, SLASH, B]) && !Live(nodes, [A, SLASH, PLUS])
    ensures InsertPubAsWritten(nodes, [[B]], [A, SLASH, 0, 0])
         == Some(([[A, SLASH, B], [A, SLASH, PLUS], [A, SLASH, HASH]], [A, SLASH, 0, 0]))
  {
    var toks: seq<seq<uint8>> := [[B]];
    var buf: seq<uint8> := [A, SLASH, 0, 0];
    assert buf == [A, SLASH] + [NUL] + [0];
    LenAt([A, SLASH], [0]);
    var b1: seq<uint8> := [A, SLASH, B, 0];
    assert buf[..2] + [B] + buf[3..] == b1;
    assert b1 == [A, SLASH, B] + [NUL] + [];
    KeyAt([A, SLASH, B], []);
    assert b1[..2] + seq(1, _ => NUL) + b1[3..] == buf;
    LiteralStepDead(nodes, toks, buf, 2, b1, [A, SLASH, B], buf);
    var b3: seq<uint8> := [A, SLASH, PLUS, 0];
    assert buf[2 := PLUS] == b3;
    assert b3[2 := NUL] == buf;
    assert b3 == [A, SLASH, PLUS] + [NUL] + [];
    KeyAt([A, SLASH, PLUS], []);
    PlusStepDead(nodes, toks, buf, 2, b3, [A, SLASH, PLUS], buf);
    var b5: seq<uint8> := [A, SLASH, HASH, 0];
    assert buf[2 := HASH] == b5;
    assert b5[2 := NUL] == buf;
    assert b5 == [A, SLASH, HASH] + [NUL] + [];
    KeyAt([A, SLASH, HASH], []);
    HashStepOk(buf, 2, b5, [A, SLASH, HASH], buf);
    LevelOk(nodes, toks, buf, 2, ([[A, SLASH, B]], buf), ([[A, SLASH, PLUS]], buf), ([[A, SLASH, HASH]], buf));
    assert [[A, SLASH, B]] + [[A, SLASH, PLUS]] + [[A, SLASH, HASH]] == [[A, SLASH, B], [A, SLASH, PLUS], [A, SLASH, HASH]];
  }

  /** With a subscriber on "a", a message on "a/" makes the '+' candidate of
      its empty last level overwrite the only NUL of the three-byte buffer,
      so looking up "a/+" reads past its end. */
  lemma EmptyLastLevelOverreads(s1: seq<SubNode>)
    requires s1 != []
    ensures PubLookupsAsWritten(map[[A] := s1], [A, SLASH]).None?
  {
    var nodes := map[[A] := s1];
    var toks: seq<seq<uint8>> := [[A], []];
    CStrOfNulFree([A, SLASH]);
    assert Tokens([A, SLASH]) == toks by {
      TokensOfJoin(toks);
      assert Join(toks) == [A, SLASH];
    }
    var z: seq<uint8> := [0, 0, 0];
    assert seq(3, _ => NUL) == z;
    assert [A, SLASH] != [A];
    EmptyLastLevelTop(nodes);
  }

  lemma EmptyLastLevelTop(nodes: map<seq<uint8>, seq<SubNode>>)
    requires Live(nodes, [A]) && !Live(nodes, [A, SLASH])
    ensures InsertPubAsWritten(nodes, [[A], []], [0, 0, 0]).None?
  {
    var toks: seq<seq<uint8>> := [[A], []];
    assert InsertPubAsWritten(nodes, toks[1..], [A, SLASH, 0]).None? by {
      EmptyLevelOverreads(nodes);
      assert toks[1..] == [[]];
    }
    EmptyLastLevelBuffers();
    LiteralStepLiveFails(nodes, toks, [0, 0, 0], 0, [A, 0, 0], [A], [A, SLASH, 0]);
  }

  /** The buffer states of the top-level literal step for "a/". */
  lemma EmptyLastLevelBuffers()
    ensures BufLen([0, 0, 0]) == Some(0)
    ensures CopyAt([0, 0, 0], 0, [A]) == Some([A, 0, 0])
    ensures BufKey([A, 0, 0]) == Some([A])
    ensures WriteAt([A, 0, 0], 1, SLASH) == Some([A, SLASH, 0])
  {
    var z: seq<uint8> := [0, 0, 0];
    var b1: seq<uint8> := [A, 0, 0];
    assert z == [] + [NUL] + [0, 0];
    LenAt([], [0, 0]);
    assert z[..0] + [A] + z[1..] == b1;
    assert b1 == [A] + [NUL] + [0];
    KeyAt([A], [0]);
    assert b1[1 := SLASH] == [A, SLASH, 0];
  }

  /** The empty level after "a/" in a three-byte buffer. */
  lemma EmptyLevelOverreads(nodes: map<seq<uint8>, seq<SubNode>>)
    requires !Live(nodes, [A, SLASH])
    ensures InsertPubAsWritten(nodes, [[]], [A, SLASH, 0]).None?
  {
    var toks: seq<seq<uint8>> := [[]];
    var buf: seq<uint8> := [A, SLASH, 0];
    assert buf == [A, SLASH] + [NUL] + [];
    LenAt([A, SLASH], []);
    assert buf[..2] + [] + buf[2..] == buf;
    KeyAt([A, SLASH], []);
    assert buf[..2] + seq(0, _ => NUL) + buf[2..] == buf;
    LiteralStepDead(nodes, toks, buf, 2, buf, [A, SLASH], buf);
    var b3: seq<uint8> := [A, SLASH, PLUS];
    assert buf[2 := PLUS] == b3;
    KeyPastEnd(b3);
    PlusStepUnterminated(nodes, toks, buf, 2, b3);
  }

  /** With a subscriber on "a", a message on "a" itself overreads as well:
      the '/' written after the live level fills the last byte of the
      two-byte buffer, and once the level is cleared the '+' candidate has
      no NUL after it. */
  lemma OneLetterTopicOverreads(s1: seq<SubNode>)
    requires s1 != []
    ensures PubLookupsAsWritten(map[[A] := s1], [A]).None?
  {
    var nodes := map[[A] := s1];
    var toks: seq<seq<uint8>> := [[A]];
    CStrOfNulFree([A]);
    TokensA();
    var z: seq<uint8> := [0, 0];
    assert seq(2, _ => NUL) == z;
    assert z == [] + [NUL] + [0];
    LenAt([], [0]);
    var b1: seq<uint8> := [A, 0];
    assert z[..0] + [A] + z[1..] == b1;
    assert b1 == [A] + [NUL] + [];
    KeyAt([A], []);
    var b1': seq<uint8> := [A, SLASH];
    assert b1[1 := SLASH] == b1';
    assert toks[1..] == [];
    var b2: seq<uint8> := [0, SLASH];
    assert b1'[..0] + seq(1, _ => NUL) + b1'[1..] == b2;
    LiteralStepLive(nodes, toks, z, 0, b1, [A], b1', [], b1', b2);
    var b3: seq<uint8> := [PLUS, SLASH];
    assert b2[0 := PLUS] == b3;
    KeyPastEnd(b3);
    PlusStepUnterminated(nodes, toks, b2, 0, b3);
  }
}
