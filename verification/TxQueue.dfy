/** The transmit list and the action queue (mdns_send.c, mdns_service.c): a list of packets sorted by
 * sending time, the timer tick that posts due packets, and the service task that sends a posted
 * packet only if it is still the head. */
module TxQueue {
  import opened Bytes

  const ACTION_QUEUE_LEN := 16

  /** Interface slots; MDNS_MAX_INTERFACES is 3 in this build. */
  type Ifx = i: int | 0 <= i < 3

  datatype Port = Port(ifx: Ifx, v6: bool)

  /** A service: its identity, its type-and-protocol strings, and its host (0 is this device). */
  datatype Svc = Svc(id: nat, key: nat, host: nat)

  datatype RecordType = SdPtr | Ptr | Srv | Txt | A | Aaaa

  datatype Answer = Answer(kind: RecordType, service: Option<Svc>, host: Option<nat>)

  /** A question for a service instance, or for a host name (of the device or of a service). */
  datatype Question = ServiceQ(service: Svc) | HostQ(of: Option<Svc>)

  datatype Body = Body(questions: seq<Question>, answers: seq<Answer>, servers: seq<Answer>,
                       additional: seq<Answer>, distributed: bool)

  /** mdns_tx_packet_t; `id` stands for the address of the packet. */
  datatype Packet = Packet(id: nat, sendAt: nat, queued: bool, port: Port, body: Body)

  /** An action waiting for the service task: a packet to send, or anything else. */
  datatype Action = Tx(id: nat) | Other

  datatype Queue = Queue(now: nat, tx: seq<Packet>, fifo: seq<Action>, nextId: nat)

  // ---------- The operations ----------

  /** mdns_priv_send_after: before the first packet that is to be sent later. */
  function Insert(tx: seq<Packet>, p: Packet): seq<Packet> {
    if tx == [] || tx[0].sendAt > p.sendAt then [p] + tx else [tx[0]] + Insert(tx[1..], p)
  }

  function SendAfter(q: Queue, id: nat, port: Port, body: Body, ms: nat): Queue {
    q.(tx := Insert(q.tx, Packet(id, q.now + ms, false, port, body)))
  }

  /** A new packet, with a fresh address. */
  function SendNew(q: Queue, port: Port, body: Body, ms: nat): Queue {
    SendAfter(q.(nextId := q.nextId + 1), q.nextId, port, body, ms)
  }

  /** mdns_priv_clear_tx_queue_if. */
  function Without(tx: seq<Packet>, port: Port): seq<Packet> {
    if tx == [] then []
    else if tx[0].port == port then Without(tx[1..], port)
    else [tx[0]] + Without(tx[1..], port)
  }

  predicate Due(p: Packet, now: nat) {
    p.sendAt < now
  }

  /** The posting loop of mdns_priv_send_packets, from its first packet on.  `accept[i]` says whether the
   * action queue took the i-th post. */
  function Post(tx: seq<Packet>, now: nat, accept: seq<bool>): (r: (seq<Packet>, seq<Action>))
  {
    if tx == [] || !Due(tx[0], now) || accept == [] then (tx, [])
    else
      var (rest, posted) := Post(tx[1..], now, accept[1..]);
      if accept[0] then ([tx[0].(queued := true)] + rest, [Tx(tx[0].id)] + posted)
      else ([tx[0].(queued := false)] + rest, posted)
  }

  /** The packets before the first that is not queued. */
  function QueuedLen(tx: seq<Packet>): (n: nat)
    ensures n <= |tx| && (forall i :: 0 <= i < n ==> tx[i].queued) && (n < |tx| ==> !tx[n].queued)
  {
    if tx == [] || !tx[0].queued then 0 else 1 + QueuedLen(tx[1..])
  }

  /** One timer tick: looks for the first packet not queued, and posts from there while packets are due. */
  function TickWith(q: Queue, accept: seq<bool>): Queue {
    var n := QueuedLen(q.tx);
    var (rest, posted) := Post(q.tx[n..], q.now, accept);
    q.(tx := q.tx[..n] + rest, fifo := q.fifo + posted)
  }

  /** The answers the action queue gives while nothing is taken from it. */
  function Room(fifo: seq<Action>, posts: nat): (accept: seq<bool>)
    ensures |accept| == posts
  {
    seq(posts, i => |fifo| + i < ACTION_QUEUE_LEN)
  }

  function Tick(q: Queue): Queue {
    TickWith(q, Room(q.fifo, |q.tx|))
  }

  /** send_packet: the packet to be handled, if it is at the head and was posted. */
  function Claimed(q: Queue, id: nat): Option<Packet> {
    if q.tx != [] && q.tx[0].id == id && q.tx[0].queued then Some(q.tx[0].(queued := false)) else None
  }

  function AfterClaim(q: Queue, id: nat): Queue {
    if Claimed(q, id).Some? then q.(tx := q.tx[1..]) else q
  }

  // ---------- The invariant ----------

  predicate Sorted(tx: seq<Packet>) {
    forall i, j :: 0 <= i < j < |tx| ==> tx[i].sendAt <= tx[j].sendAt
  }

  predicate QueuedFirst(tx: seq<Packet>) {
    forall i, j :: 0 <= i < j < |tx| && tx[j].queued ==> tx[i].queued
  }

  predicate DistinctIds(tx: seq<Packet>) {
    forall i, j :: 0 <= i < j < |tx| ==> tx[i].id != tx[j].id
  }

  function IdSet(tx: seq<Packet>): set<nat> {
    set p | p in tx :: p.id
  }

  function QueuedIds(tx: seq<Packet>): seq<nat> {
    if tx == [] then [] else (if tx[0].queued then [tx[0].id] else []) + QueuedIds(tx[1..])
  }

  /** The pending sends that still name a packet of the list, in order. */
  function Live(fifo: seq<Action>, ids: set<nat>): seq<nat> {
    if fifo == [] then []
    else (if fifo[0].Tx? && fifo[0].id in ids then [fifo[0].id] else []) + Live(fifo[1..], ids)
  }

  /** No packet is stranded: the posted packets come first, and their pending sends, in the same
   * order, are the only pending sends that name a packet of the list. */
  predicate QInv(q: Queue) {
    && ListOk(q.tx)
    && (forall p :: p in q.tx ==> p.id < q.nextId && (p.queued ==> p.sendAt < q.now))
    && (forall a :: a in q.fifo && a.Tx? ==> a.id < q.nextId)
    && Live(q.fifo, IdSet(q.tx)) == QueuedIds(q.tx)
  }

  // ---------- Lists of pending sends ----------

  lemma {:induction false} LiveAppend(a: seq<Action>, b: seq<Action>, ids: set<nat>)
    ensures Live(a + b, ids) == Live(a, ids) + Live(b, ids)
    decreases |a|
  {
    if a == [] {
      assert a + b == b;
    } else {
      assert (a + b)[1..] == a[1..] + b && (a + b)[0] == a[0];
      LiveAppend(a[1..], b, ids);
      var head := if a[0].Tx? && a[0].id in ids then [a[0].id] else [];
      assert head + (Live(a[1..], ids) + Live(b, ids)) == (head + Live(a[1..], ids)) + Live(b, ids);
    }
  }

  function Restrict(ids: seq<nat>, to: set<nat>): seq<nat> {
    if ids == [] then [] else (if ids[0] in to then [ids[0]] else []) + Restrict(ids[1..], to)
  }

  lemma {:induction false} RestrictAppend(a: seq<nat>, b: seq<nat>, ids: set<nat>)
    ensures Restrict(a + b, ids) == Restrict(a, ids) + Restrict(b, ids)
    decreases |a|
  {
    if a == [] {
      assert a + b == b;
    } else {
      assert (a + b)[1..] == a[1..] + b && (a + b)[0] == a[0];
      RestrictAppend(a[1..], b, ids);
      var head := if a[0] in ids then [a[0]] else [];
      assert head + (Restrict(a[1..], ids) + Restrict(b, ids)) == (head + Restrict(a[1..], ids)) + Restrict(b, ids);
    }
  }

  lemma {:induction false} LiveRestrict(fifo: seq<Action>, ids: set<nat>, fewer: set<nat>)
    requires fewer <= ids
    ensures Live(fifo, fewer) == Restrict(Live(fifo, ids), fewer)
    decreases |fifo|
  {
    if fifo != [] {
      LiveRestrict(fifo[1..], ids, fewer);
      var head := if fifo[0].Tx? && fifo[0].id in ids then [fifo[0].id] else [];
      RestrictAppend(head, Live(fifo[1..], ids), fewer);
    }
  }

  /** A packet no pending send names changes nothing. */
  lemma {:induction false} LiveWithout(fifo: seq<Action>, ids: set<nat>, id: nat)
    requires Tx(id) !in fifo
    ensures Live(fifo, ids + {id}) == Live(fifo, ids)
    decreases |fifo|
  {
    if fifo != [] {
      LiveWithout(fifo[1..], ids, id);
    }
  }

  lemma {:induction false} InLive(fifo: seq<Action>, ids: set<nat>, id: nat)
    requires Tx(id) in fifo && id in ids
    ensures id in Live(fifo, ids)
    decreases |fifo|
  {
    if fifo[0] != Tx(id) {
      InLive(fifo[1..], ids, id);
    }
  }

  lemma {:induction false} QueuedIdsOf(tx: seq<Packet>, id: nat)
    ensures id in QueuedIds(tx) <==> exists p :: p in tx && p.queued && p.id == id
    decreases |tx|
  {
    if tx != [] {
      QueuedIdsOf(tx[1..], id);
      assert tx == [tx[0]] + tx[1..];
    }
  }

  /** What is asked of the list alone. */
  predicate ListOk(tx: seq<Packet>) {
    Sorted(tx) && QueuedFirst(tx) && DistinctIds(tx)
  }

  lemma ListOkTail(tx: seq<Packet>)
    requires ListOk(tx) && tx != []
    ensures ListOk(tx[1..])
    ensures forall y :: y in tx[1..] ==> tx[0].sendAt <= y.sendAt && tx[0].id != y.id && (y.queued ==> tx[0].queued)
  {
    assert forall i :: 0 <= i < |tx[1..]| ==> tx[1..][i] == tx[i + 1];
  }

  lemma ListOkCons(p: Packet, tx: seq<Packet>)
    requires ListOk(tx)
    requires forall y :: y in tx ==> p.sendAt <= y.sendAt && p.id != y.id && (y.queued ==> p.queued)
    ensures ListOk([p] + tx)
  {
    var r := [p] + tx;
    assert forall i :: 1 <= i < |r| ==> r[i] == tx[i - 1] && r[i] in tx;
  }

  // ---------- Scheduling ----------

  lemma {:induction false} InsertMembers(tx: seq<Packet>, p: Packet)
    ensures forall x :: x in Insert(tx, p) <==> x == p || x in tx
    ensures |Insert(tx, p)| == |tx| + 1
    decreases |tx|
  {
    if tx != [] && tx[0].sendAt <= p.sendAt {
      InsertMembers(tx[1..], p);
      assert tx == [tx[0]] + tx[1..];
    }
  }

  lemma {:induction false} InsertKeeps(tx: seq<Packet>, p: Packet)
    requires ListOk(tx) && !p.queued
    requires forall x :: x in tx ==> x.id != p.id && (x.queued ==> x.sendAt <= p.sendAt)
    ensures ListOk(Insert(tx, p)) && QueuedIds(Insert(tx, p)) == QueuedIds(tx)
    decreases |tx|
  {
    hide ListOk, QueuedIds;
    QueuedIdsStep(tx);
    QueuedIdsStep(Insert(tx, p));
    if tx != [] && tx[0].sendAt <= p.sendAt {
      ListOkTail(tx);
      InsertKeeps(tx[1..], p);
      InsertMembers(tx[1..], p);
      ListOkCons(tx[0], Insert(tx[1..], p));
    } else {
      if tx != [] {
        ListOkTail(tx);
        assert forall x :: x in tx ==> x == tx[0] || x in tx[1..];
      }
      QueuedIdsNone(tx);
      ListOkCons(p, tx);
    }
  }

  lemma QueuedIdsStep(tx: seq<Packet>)
    ensures QueuedIds(tx) == if tx == [] then [] else (if tx[0].queued then [tx[0].id] else []) + QueuedIds(tx[1..])
  {}

  lemma QueuedIdsNone(tx: seq<Packet>)
    ensures (forall x :: x in tx ==> !x.queued) ==> QueuedIds(tx) == []
  {
    if forall x :: x in tx ==> !x.queued {
      if QueuedIds(tx) != [] {
        QueuedIdsOf(tx, QueuedIds(tx)[0]);
      }
    }
  }

  /** Scheduling a packet keeps the invariant, if its address is not the packet's of a pending send. */
  lemma SendAfterKeeps(q: Queue, id: nat, port: Port, body: Body, ms: nat)
    requires QInv(q) && id < q.nextId && Tx(id) !in q.fifo && id !in IdSet(q.tx)
    ensures QInv(SendAfter(q, id, port, body, ms))
  {
    hide ListOk, Live, QueuedIds, Insert;
    var p := Packet(id, q.now + ms, false, port, body);
    forall x | x in q.tx
      ensures x.id != p.id && (x.queued ==> x.sendAt <= p.sendAt)
    {
      assert x.id in IdSet(q.tx);
    }
    InsertKeeps(q.tx, p);
    InsertMembers(q.tx, p);
    var r := Insert(q.tx, p);
    assert IdSet(r) == IdSet(q.tx) + {id} by {
      assert p in r;
      forall x | x in IdSet(q.tx)
        ensures x in IdSet(r)
      {
        var y :| y in q.tx && y.id == x;
        assert y in r;
      }
    }
    LiveWithout(q.fifo, IdSet(q.tx), id);
  }

  lemma SendNewKeeps(q: Queue, port: Port, body: Body, ms: nat)
    requires QInv(q)
    ensures QInv(SendNew(q, port, body, ms))
  {
    hide ListOk, Live, QueuedIds, Insert;
    assert forall x :: x in q.tx ==> x.id < q.nextId;
    SendAfterKeeps(q.(nextId := q.nextId + 1), q.nextId, port, body, ms);
  }

  // ---------- Removing and editing ----------

  predicate SameHeader(a: Packet, b: Packet) {
    a.id == b.id && a.sendAt == b.sendAt && a.queued == b.queued && a.port == b.port
  }

  /** Some packets removed, others perhaps with another body. */
  predicate Thinned(after: seq<Packet>, before: seq<Packet>) {
    if before == [] then after == []
    else
      || (after != [] && SameHeader(after[0], before[0]) && Thinned(after[1..], before[1..]))
      || Thinned(after, before[1..])
  }

  lemma {:induction false} ThinnedFrom(after: seq<Packet>, before: seq<Packet>)
    requires Thinned(after, before)
    ensures forall x :: x in after ==> exists y :: y in before && SameHeader(x, y)
    decreases |before|
  {
    if before != [] {
      if after != [] && SameHeader(after[0], before[0]) && Thinned(after[1..], before[1..]) {
        ThinnedFrom(after[1..], before[1..]);
        assert after == [after[0]] + after[1..];
      } else {
        ThinnedFrom(after, before[1..]);
      }
    }
  }

  lemma {:induction false} ThinnedKeeps(after: seq<Packet>, before: seq<Packet>)
    requires Thinned(after, before) && ListOk(before)
    ensures ListOk(after) && IdSet(after) <= IdSet(before)
    ensures QueuedIds(after) == Restrict(QueuedIds(before), IdSet(after))
    decreases |before|
  {
    ThinnedFrom(after, before);
    if before != [] {
      ListOkTail(before);
      var head := if before[0].queued then [before[0].id] else [];
      RestrictAppend(head, QueuedIds(before[1..]), IdSet(after));
      if after != [] && SameHeader(after[0], before[0]) && Thinned(after[1..], before[1..]) {
        ThinnedFrom(after[1..], before[1..]);
        ThinnedKeeps(after[1..], before[1..]);
        ListOkCons(after[0], after[1..]);
        assert after == [after[0]] + after[1..];
        assert IdSet(after) == {after[0].id} + IdSet(after[1..]);
        NotInQueuedIds(before[1..], after[0].id);
        RestrictMore(QueuedIds(before[1..]), IdSet(after[1..]), after[0].id);
      } else {
        ThinnedFrom(after, before[1..]);
        ThinnedKeeps(after, before[1..]);
        assert before[0].id !in IdSet(after);
      }
    }
  }

  lemma NotInQueuedIds(tx: seq<Packet>, id: nat)
    requires forall y :: y in tx ==> y.id != id
    ensures id !in QueuedIds(tx)
  {
    QueuedIdsOf(tx, id);
  }

  lemma {:induction false} RestrictMore(ids: seq<nat>, to: set<nat>, id: nat)
    requires id !in ids
    ensures Restrict(ids, {id} + to) == Restrict(ids, to)
    decreases |ids|
  {
    if ids != [] {
      RestrictMore(ids[1..], to, id);
    }
  }

  /** Cancelling packets, and editing what packets will carry, keeps the invariant. */
  lemma ThinningKeeps(q: Queue, after: seq<Packet>)
    requires QInv(q) && Thinned(after, q.tx)
    ensures QInv(q.(tx := after))
  {
    ThinnedKeeps(after, q.tx);
    ThinnedFrom(after, q.tx);
    LiveRestrict(q.fifo, IdSet(q.tx), IdSet(after));
  }

  lemma {:induction false} WithoutThins(tx: seq<Packet>, port: Port)
    ensures Thinned(Without(tx, port), tx)
    ensures forall x :: x in Without(tx, port) <==> x in tx && x.port != port
    decreases |tx|
  {
    if tx != [] {
      WithoutThins(tx[1..], port);
      assert tx == [tx[0]] + tx[1..];
    }
  }

  // ---------- The timer tick ----------

  /** How many packets the posting loop looks at. */
  function DueLen(tx: seq<Packet>, now: nat): (n: nat)
    ensures n <= |tx|
  {
    if tx == [] || !Due(tx[0], now) then 0 else 1 + DueLen(tx[1..], now)
  }

  /** Once a post fails, the rest of the tick fails. */
  predicate FailuresLast(accept: seq<bool>) {
    forall i, j :: 0 <= i < j < |accept| && accept[j] ==> accept[i]
  }

  /** What the posting loop does to packets none of which is queued. */
  lemma {:induction false} PostMeaning(tx: seq<Packet>, now: nat, accept: seq<bool>, ids: set<nat>)
    requires (forall p :: p in tx ==> !p.queued && p.id in ids) && |accept| >= DueLen(tx, now)
    ensures var (r, posted) := Post(tx, now, accept);
            && |r| == |tx|
            && (forall i :: 0 <= i < |tx| ==>
                  && r[i] == tx[i].(queued := i < DueLen(tx, now) && accept[i])
                  && (r[i].queued ==> Due(r[i], now)))
            && Live(posted, ids) == QueuedIds(r)
            && forall a :: a in posted ==> a.Tx? && a.id in ids
    decreases |tx|
  {
    if tx != [] && Due(tx[0], now) {
      PostMeaning(tx[1..], now, accept[1..], ids);
      var (rest, more) := Post(tx[1..], now, accept[1..]);
      var (r, posted) := Post(tx, now, accept);
      assert forall i :: 1 <= i < |tx| ==> tx[i] == tx[1..][i - 1] && r[i] == rest[i - 1];
      assert r[1..] == rest;
      if accept[0] {
        assert posted[1..] == more;
      }
    } else {
      QueuedIdsNone(tx);
    }
  }

  lemma {:induction false} QueuedIdsAppend(a: seq<Packet>, b: seq<Packet>)
    ensures QueuedIds(a + b) == QueuedIds(a) + QueuedIds(b)
    decreases |a|
  {
    if a == [] {
      assert a + b == b;
    } else {
      assert (a + b)[1..] == a[1..] + b && (a + b)[0] == a[0];
      QueuedIdsAppend(a[1..], b);
      var head := if a[0].queued then [a[0].id] else [];
      assert head + (QueuedIds(a[1..]) + QueuedIds(b)) == (head + QueuedIds(a[1..])) + QueuedIds(b);
    }
  }

  lemma TickIs(q: Queue, accept: seq<bool>)
    ensures var n := QueuedLen(q.tx); var (rest, posted) := Post(q.tx[n..], q.now, accept);
            TickWith(q, accept) == q.(tx := q.tx[..n] + rest, fifo := q.fifo + posted)
  {}

  lemma QueuedFirstSplits(tx: seq<Packet>)
    requires QueuedFirst(tx)
    ensures forall i :: 0 <= i < |tx| ==> (tx[i].queued <==> i < QueuedLen(tx))
  {}

  lemma TailIsUnqueued(q: Queue)
    requires QueuedFirst(q.tx)
    ensures forall p :: p in q.tx[QueuedLen(q.tx)..] ==> !p.queued && p.id in IdSet(q.tx)
  {
    var n := QueuedLen(q.tx);
    QueuedFirstSplits(q.tx);
    forall p | p in q.tx[n..]
      ensures !p.queued && p.id in IdSet(q.tx)
    {
      var i :| 0 <= i < |q.tx[n..]| && q.tx[n..][i] == p;
      assert q.tx[n + i] == p && p in q.tx;
    }
  }

  /** A tick changes nothing of the list but which packets are posted. */
  predicate TickEdit(q: Queue, accept: seq<bool>, i: nat, after: Packet)
    requires i < |q.tx|
  {
    var n := QueuedLen(q.tx);
    && after == q.tx[i].(queued := i < n || (i < n + |accept| && accept[i - n]))
    && (after.queued ==> i < n || Due(q.tx[i], q.now))
  }

  lemma TickEdits(q: Queue, accept: seq<bool>)
    requires QueuedFirst(q.tx) && |accept| == DueLen(q.tx[QueuedLen(q.tx)..], q.now)
    ensures var tx' := TickWith(q, accept).tx;
            && |tx'| == |q.tx| && QueuedLen(q.tx) + |accept| <= |q.tx|
            && forall i :: 0 <= i < |q.tx| ==> TickEdit(q, accept, i, tx'[i])
  {
    hide Live, QueuedIds, Post, DueLen, QueuedFirst, TickEdit;
    var n := QueuedLen(q.tx);
    var tail := q.tx[n..];
    TailIsUnqueued(q);
    PostMeaning(tail, q.now, accept, IdSet(q.tx));
    var rest := Post(tail, q.now, accept).0;
    var tx' := q.tx[..n] + rest;
    assert TickWith(q, accept).tx == tx';
    forall i | 0 <= i < |q.tx|
      ensures TickEdit(q, accept, i, tx'[i])
    {
      OneEdit(q, accept, i, rest, DueLen(tail, q.now));
    }
  }

  lemma OneEdit(q: Queue, accept: seq<bool>, i: nat, rest: seq<Packet>, m: nat)
    requires i < |q.tx| && |rest| == |q.tx| - QueuedLen(q.tx) && |accept| == m
    requires i >= QueuedLen(q.tx) ==>
               var k := i - QueuedLen(q.tx); var tail := q.tx[QueuedLen(q.tx)..];
               && rest[k] == tail[k].(queued := k < m && accept[k]) && (rest[k].queued ==> Due(rest[k], q.now))
    ensures TickEdit(q, accept, i, (q.tx[..QueuedLen(q.tx)] + rest)[i])
  {}

  /** The sends a tick posts name, in order, the packets it posts. */
  lemma TickPosts(q: Queue, accept: seq<bool>)
    requires QueuedFirst(q.tx) && |accept| == DueLen(q.tx[QueuedLen(q.tx)..], q.now)
    ensures var q' := TickWith(q, accept); var ids := IdSet(q.tx);
            Live(q.fifo, ids) == QueuedIds(q.tx) ==> Live(q'.fifo, ids) == QueuedIds(q'.tx)
    ensures forall a :: a in TickWith(q, accept).fifo ==> a in q.fifo || (a.Tx? && a.id in IdSet(q.tx))
  {
    hide Live, QueuedIds, Post, DueLen, QueuedFirst;
    var n := QueuedLen(q.tx);
    TailIsUnqueued(q);
    PostMeaning(q.tx[n..], q.now, accept, IdSet(q.tx));
    var (rest, posted) := Post(q.tx[n..], q.now, accept);
    LiveAppend(q.fifo, posted, IdSet(q.tx));
    QueuedIdsAppend(q.tx[..n], q.tx[n..]);
    QueuedIdsAppend(q.tx[..n], rest);
    QueuedIdsNone(q.tx[n..]);
    assert q.tx == q.tx[..n] + q.tx[n..];
  }

  lemma QueuedFirstIff(tx: seq<Packet>, n: nat, accept: seq<bool>)
    requires n + |accept| <= |tx|
    requires forall i :: 0 <= i < |tx| ==> (tx[i].queued <==> i < n || (i < n + |accept| && accept[i - n]))
    ensures QueuedFirst(tx) <==> FailuresLast(accept)
  {
    if QueuedFirst(tx) {
      forall i, j | 0 <= i < j < |accept| && accept[j]
        ensures accept[i]
      {
        assert tx[n + i].queued <== tx[n + j].queued;
      }
    }
  }

  /** A tick in which posts succeed and fail as `accept` says strands no packet if and only if, among
   * the posts made, none succeeds after one that failed. */
  lemma TickKeepsIff(q: Queue, accept: seq<bool>)
    requires QInv(q) && |accept| == DueLen(q.tx[QueuedLen(q.tx)..], q.now)
    ensures QInv(TickWith(q, accept)) <==> FailuresLast(accept)
  {
    hide Live, QueuedIds, Post, DueLen, TickWith, QueuedFirst, Sorted, DistinctIds;
    var q' := TickWith(q, accept);
    var n := QueuedLen(q.tx);
    TickEdits(q, accept);
    TickFrame(q, accept);
    TickPosts(q, accept);
    QueuedAreOld(q.tx);
    forall i | 0 <= i < |q.tx|
      ensures q'.tx[i].id == q.tx[i].id && q'.tx[i].sendAt == q.tx[i].sendAt
      ensures q'.tx[i].queued <==> i < n || (i < n + |accept| && accept[i - n])
      ensures q'.tx[i].queued ==> q.tx[i].sendAt < q.now
    {
      assert TickEdit(q, accept, i, q'.tx[i]);
      assert q.tx[i] in q.tx;
    }
    SameShape(q.tx, q'.tx);
    QueuedFirstIff(q'.tx, n, accept);
  }

  lemma SameShape(a: seq<Packet>, b: seq<Packet>)
    requires |a| == |b| && forall i :: 0 <= i < |a| ==> b[i].id == a[i].id && b[i].sendAt == a[i].sendAt
    ensures (Sorted(a) ==> Sorted(b)) && (DistinctIds(a) ==> DistinctIds(b)) && IdSet(b) == IdSet(a)
  {
    assert forall i :: 0 <= i < |a| ==> a[i] in a && b[i] in b;
  }

  lemma QueuedAreOld(tx: seq<Packet>)
    ensures forall i :: 0 <= i < QueuedLen(tx) ==> tx[i].queued && tx[i] in tx
  {}

  lemma TickFrame(q: Queue, accept: seq<bool>)
    ensures TickWith(q, accept).now == q.now && TickWith(q, accept).nextId == q.nextId
  {}

  /** While the action queue is only filled, a tick strands no packet. */
  lemma TickKeeps(q: Queue)
    requires QInv(q)
    ensures QInv(Tick(q))
  {
    var m := DueLen(q.tx[QueuedLen(q.tx)..], q.now);
    PostTakes(q.tx[QueuedLen(q.tx)..], q.now, Room(q.fifo, |q.tx|));
    TickKeepsIff(q, Room(q.fifo, |q.tx|)[..m]);
  }

  /** Only as many answers matter as there are due packets. */
  lemma {:induction false} PostTakes(tx: seq<Packet>, now: nat, accept: seq<bool>)
    requires |accept| >= DueLen(tx, now)
    ensures Post(tx, now, accept[..DueLen(tx, now)]) == Post(tx, now, accept)
    decreases |tx|
  {
    if tx != [] && Due(tx[0], now) {
      PostTakes(tx[1..], now, accept[1..]);
      var m := DueLen(tx, now);
      assert accept[..m][1..] == accept[1..][..m - 1];
    }
  }

  // ---------- The service task ----------

  /** Every send the service task takes either is for the head of the list, posted, or names a packet
   * that is no longer there; after it no other pending send names that packet. */
  lemma EverySendIsForTheHead(q: Queue)
    requires QInv(q) && q.fifo != [] && q.fifo[0].Tx?
    ensures var id := q.fifo[0].id; var q' := q.(fifo := q.fifo[1..]);
            && (id in IdSet(q.tx) <==> Claimed(q', id).Some?)
            && QInv(AfterClaim(q', id))
            && (id in IdSet(q.tx) ==> Tx(id) !in q'.fifo && id !in IdSet(AfterClaim(q', id).tx))
  {
    hide ListOk;
    var id := q.fifo[0].id;
    var q' := q.(fifo := q.fifo[1..]);
    var ids := IdSet(q.tx);
    if id in ids {
      var queued := QueuedIds(q.tx);
      assert Live(q.fifo, ids)[0] == id && Live(q.fifo, ids)[1..] == Live(q'.fifo, ids);
      QueuedIdsOf(q.tx, id);
      HeadIsPosted(q.tx);
      var rest := q.tx[1..];
      ListOkTail(q.tx);
      assert q.tx == [q.tx[0]] + rest;
      assert ids == {id} + IdSet(rest);
      NotInQueuedIds(rest, id);
      if Tx(id) in q'.fifo {
        InLive(q'.fifo, ids, id);
      }
      assert id !in IdSet(rest);
      LiveWithout(q'.fifo, IdSet(rest), id);
      assert IdSet(rest) + {id} == ids;
    }
  }

  lemma HeadIsPosted(tx: seq<Packet>)
    requires ListOk(tx) && QueuedIds(tx) != []
    ensures tx != [] && tx[0].queued && QueuedIds(tx)[0] == tx[0].id && QueuedIds(tx)[1..] == QueuedIds(tx[1..])
  {
    QueuedIdsNone(tx);
    var x :| x in tx && x.queued;
    var j :| 0 <= j < |tx| && tx[j] == x;
  }

  lemma PopKeeps(q: Queue)
    requires QInv(q) && q.fifo != [] && q.fifo[0].Other?
    ensures QInv(q.(fifo := q.fifo[1..]))
  {}

  lemma PushKeeps(q: Queue)
    requires QInv(q)
    ensures QInv(q.(fifo := q.fifo + [Other]))
  {
    LiveAppend(q.fifo, [Other], IdSet(q.tx));
    assert Live([Other], IdSet(q.tx)) == [];
  }

  lemma WaitKeeps(q: Queue, ms: nat)
    requires QInv(q)
    ensures QInv(q.(now := q.now + ms))
  {}
}
