/** What a tick posts, and what happens when it is not atomic: the service task takes an action between two posts, so
 * that a post fails and a later one succeeds (mdns_send.c:1714-1746, mdns_service.c:201-222). */
module TxStranding {
  import opened TxQueue

  /** A posted head that no pending send names. */
  predicate Stuck(q: Queue) {
    && q.tx != [] && q.tx[0].queued && q.tx[0].sendAt < q.now && q.tx[0].id < q.nextId
    && Tx(q.tx[0].id) !in q.fifo
    && forall p :: p in q.tx[1..] ==> p.id != q.tx[0].id
  }

  /** What can happen to the queue, other than cancelling packets. */
  datatype QueueEvent =
    | Wait(ms: nat)
    | TickOf(accept: seq<bool>)
    | Take
    | Push
    | Send(port: Port, body: Body, ms: nat)

  function Take1(q: Queue): Queue {
    if q.fifo == [] then q
    else
      var q' := q.(fifo := q.fifo[1..]);
      if q.fifo[0].Tx? then AfterClaim(q', q.fifo[0].id) else q'
  }

  function Do(q: Queue, e: QueueEvent): Queue {
    match e
    case Wait(ms) => q.(now := q.now + ms)
    case TickOf(accept) => TickWith(q, accept)
    case Take => Take1(q)
    case Push => q.(fifo := q.fifo + [Other])
    case Send(port, body, ms) => SendNew(q, port, body, ms)
  }

  function DoAll(q: Queue, events: seq<QueueEvent>): Queue
    decreases |events|
  {
    if events == [] then q else DoAll(Do(q, events[0]), events[1..])
  }

  lemma {:induction false} PostIds(tx: seq<Packet>, now: nat, accept: seq<bool>)
    ensures forall p :: p in Post(tx, now, accept).0 ==> exists y :: y in tx && y.id == p.id
    ensures forall a :: a in Post(tx, now, accept).1 ==> a.Tx? && exists y :: y in tx && y.id == a.id
    decreases |tx|
  {
    if tx != [] && Due(tx[0], now) && accept != [] {
      PostIds(tx[1..], now, accept[1..]);
      assert tx[0] in tx && forall y :: y in tx[1..] ==> y in tx;
    }
  }

  lemma StuckTick(q: Queue, accept: seq<bool>)
    requires Stuck(q)
    ensures Stuck(TickWith(q, accept)) && TickWith(q, accept).tx[0] == q.tx[0]
  {
    hide Post, TickWith;
    var n := QueuedLen(q.tx);
    var head := q.tx[0];
    var (rest, posted) := Post(q.tx[n..], q.now, accept);
    PostIds(q.tx[n..], q.now, accept);
    TickIs(q, accept);
    forall y | y in q.tx[n..]
      ensures y.id != head.id
    {
      var i :| 0 <= i < |q.tx[n..]| && q.tx[n..][i] == y;
      assert q.tx[1..][n + i - 1] == y;
    }
    forall p | p in (q.tx[..n] + rest)[1..]
      ensures p.id != head.id
    {
      var i :| 0 <= i < |(q.tx[..n] + rest)[1..]| && (q.tx[..n] + rest)[1..][i] == p;
      if i + 1 < n {
        assert q.tx[1..][i] == p;
      } else {
        assert rest[i + 1 - n] == p;
      }
    }
  }

  lemma StuckSend(q: Queue, port: Port, body: Body, ms: nat)
    requires Stuck(q)
    ensures Stuck(SendNew(q, port, body, ms)) && SendNew(q, port, body, ms).tx[0] == q.tx[0]
  {
    var p := Packet(q.nextId, q.now + ms, false, port, body);
    InsertMembers(q.tx[1..], p);
    assert Insert(q.tx, p) == [q.tx[0]] + Insert(q.tx[1..], p);
  }

  /** A stuck head stays, unsent, and so does every packet behind it, until it is cancelled. */
  lemma {:induction false} StuckForGood(q: Queue, events: seq<QueueEvent>)
    requires Stuck(q)
    ensures Stuck(DoAll(q, events)) && DoAll(q, events).tx[0] == q.tx[0]
    ensures |DoAll(q, events).tx| >= |q.tx|
    decreases |events|
  {
    hide TickWith, SendNew;
    if events != [] {
      match events[0] {
        case TickOf(accept) =>
          StuckTick(q, accept);
          TickLength(q, accept);
        case Send(port, body, ms) =>
          StuckSend(q, port, body, ms);
          InsertMembers(q.tx, Packet(q.nextId, q.now + ms, false, port, body));
          SendLength(q, port, body, ms);
        case _ =>
      }
      StuckForGood(Do(q, events[0]), events[1..]);
    }
  }

  lemma {:induction false} PostLength(tx: seq<Packet>, now: nat, accept: seq<bool>)
    ensures |Post(tx, now, accept).0| == |tx|
    decreases |tx|
  {
    if tx != [] && Due(tx[0], now) && accept != [] {
      PostLength(tx[1..], now, accept[1..]);
    }
  }

  lemma TickLength(q: Queue, accept: seq<bool>)
    ensures |TickWith(q, accept).tx| == |q.tx|
  {
    PostLength(q.tx[QueuedLen(q.tx)..], q.now, accept);
  }

  lemma SendLength(q: Queue, port: Port, body: Body, ms: nat)
    ensures |SendNew(q, port, body, ms).tx| == |q.tx| + 1
  {
    InsertMembers(q.tx, Packet(q.nextId, q.now + ms, false, port, body));
  }

  /** All pending actions taken. */
  function Drain(q: Queue): Queue
    decreases |q.fifo|
  {
    if q.fifo == [] then q else Drain(Take1(q))
  }

  /** While the head is not posted, taking actions only empties the action queue. */
  lemma {:induction false} DrainIdle(q: Queue)
    requires q.tx != [] && !q.tx[0].queued
    ensures Drain(q) == q.(fifo := [])
    decreases |q.fifo|
  {
    if q.fifo != [] {
      DrainIdle(Take1(q));
    }
  }

  // ---------- What the action queue answers ----------

  /** The answers to the posts of one tick when the service task takes `takes[i]` actions out of the queue just
   * before the i-th: a post is refused exactly when the queue is full. */
  function Answers(held: nat, takes: seq<nat>): (accept: seq<bool>)
    ensures |accept| == |takes|
    decreases |takes|
  {
    if takes == [] then []
    else
      var left := if takes[0] < held then held - takes[0] else 0;
      if left < ACTION_QUEUE_LEN then [true] + Answers(left + 1, takes[1..]) else [false] + Answers(left, takes[1..])
  }

  /** With nothing taken, the answers are those of a tick during which the queue is only filled. */
  lemma {:induction false} NothingTaken(held: nat, takes: seq<nat>)
    requires forall i :: 0 <= i < |takes| ==> takes[i] == 0
    ensures forall i :: 0 <= i < |takes| ==> Answers(held, takes)[i] == (held + i < 16)
    decreases |takes|
  {
    if takes != [] {
      NothingTaken(if held < ACTION_QUEUE_LEN then held + 1 else held, takes[1..]);
    }
  }

  lemma NothingTakenIsRoom(fifo: seq<Action>, takes: seq<nat>)
    requires forall i :: 0 <= i < |takes| ==> takes[i] == 0
    ensures Answers(|fifo|, takes) == Room(fifo, |takes|)
  {
    NothingTaken(|fifo|, takes);
  }

  /** Such a tick does strand packets: with two packets due on different interfaces and the action queue full, let
   * the service task take an action between the two posts.  The first post is refused and the second taken; once
   * the task has worked off its queue and the first packet is cancelled, the second is posted, at the head, and no
   * pending send names it. */
  lemma LatePostStrands(q: Queue, a: Packet, b: Packet)
    requires QInv(q) && q.tx == [a, b] && a.port != b.port && |q.fifo| == 16
    requires !a.queued && !b.queued && Due(a, q.now) && Due(b, q.now)
    ensures var accept := Answers(|q.fifo|, [0, 1]);
            var q1 := Drain(TickWith(q, accept)); var q2 := q1.(tx := Without(q1.tx, a.port));
            && accept == [false, true]
            && Stuck(q2) && q2.tx == [b.(queued := true)]
  {
    AnswersAre();
    SecondPostOnly(q, a, b);
  }

  lemma AnswersAre()
    ensures Answers(ACTION_QUEUE_LEN, [0, 1]) == [false, true]
  {
    assert [0, 1][1..] == [1] && [1][1..] == [];
    assert Answers(ACTION_QUEUE_LEN, []) == [];
    assert Answers(ACTION_QUEUE_LEN, [1]) == [true] + Answers(ACTION_QUEUE_LEN, []);
  }

  /** Of two due packets of different interfaces, only the second is posted; the task works off its queue, and the
   * first is cancelled. */
  lemma SecondPostOnly(q: Queue, a: Packet, b: Packet)
    requires QInv(q) && q.tx == [a, b] && a.port != b.port
    requires !a.queued && !b.queued && Due(a, q.now) && Due(b, q.now)
    ensures var q1 := Drain(TickWith(q, [false, true])); var q2 := q1.(tx := Without(q1.tx, a.port));
            && Stuck(q2) && q2.tx == [b.(queued := true)]
  {
    var q0 := TickWith(q, [false, true]);
    assert [a, b][1..] == [b] && [b][1..] == [];
    assert [false, true][1..] == [true] && [true][1..] == [];
    assert QueuedLen(q.tx) == 0 && q.tx[0..] == q.tx;
    var b' := b.(queued := true);
    assert [b'] + [] == [b'] && [Tx(b.id)] + [] == [Tx(b.id)] && [a] + [b'] == [a, b'] && a == a.(queued := false);
    assert Post([], q.now, []) == ([], []);
    assert Post([b], q.now, [true]) == ([b.(queued := true)], [Tx(b.id)]);
    assert Post([a, b], q.now, [false, true]) == ([a, b.(queued := true)], [Tx(b.id)]);
    assert q.tx[..0] == [];
    assert q0.tx == [a, b.(queued := true)];
    DrainIdle(q0);
    assert [a, b'][1..] == [b'] && [b'][1..] == [];
    assert Without([b'], a.port) == [b'];
    assert Without([a, b'], a.port) == [b'];
    assert b in q.tx;
  }

  // ---------- What a tick posts ----------

  /** A pending send for each packet, in order. */
  function SendsFor(tx: seq<Packet>): seq<Action> {
    if tx == [] then [] else [Tx(tx[0].id)] + SendsFor(tx[1..])
  }

  lemma {:induction false} RoomPosts(tx: seq<Packet>, now: nat, accept: seq<bool>, room: nat) returns (m: nat)
    requires Sorted(tx) && |accept| >= |tx| && forall i :: 0 <= i < |tx| ==> !tx[i].queued && accept[i] == (i < room)
    ensures m <= |tx| && forall i :: 0 <= i < |tx| ==> (i < m <==> tx[i].sendAt < now && i < room)
    ensures var (r, posted) := Post(tx, now, accept);
            && |r| == |tx| && (forall i :: 0 <= i < |tx| ==> r[i] == tx[i].(queued := i < m))
            && posted == SendsFor(tx[..m])
    decreases |tx|
  {
    m := 0;
    if tx != [] && Due(tx[0], now) {
      var rest := tx[1..];
      var k := RoomPosts(rest, now, accept[1..], if room == 0 then 0 else room - 1);
      m := if room == 0 then 0 else k + 1;
      var (r, posted) := Post(tx, now, accept);
      assert forall i :: 0 < i < |tx| ==> tx[i] == rest[i - 1] && r[i] == r[1..][i - 1];
      assert r[1..] == Post(rest, now, accept[1..]).0;
      if room > 0 {
        assert tx[..m][1..] == rest[..k];
      }
    } else if tx != [] {
      assert forall i :: 0 <= i < |tx| ==> tx[0].sendAt <= tx[i].sendAt;
    }
  }

  /** A tick with nothing taken meanwhile: of the packets not posted yet, exactly those whose time has passed are
   * posted, in order, as far as the 16 places of the action queue go; and the rest stays as it is. */
  lemma TickTells(q: Queue) returns (n: nat, m: nat)
    requires QInv(q)
    ensures n + m <= |q.tx| && forall i :: 0 <= i < |q.tx| ==> (q.tx[i].queued <==> i < n)
    ensures forall i :: n <= i < |q.tx| ==> (i < n + m <==> q.tx[i].sendAt < q.now && |q.fifo| + (i - n) < 16)
    ensures var t := Tick(q);
            && t == q.(tx := t.tx, fifo := q.fifo + SendsFor(q.tx[n..n + m]))
            && |t.tx| == |q.tx| && forall i :: 0 <= i < |q.tx| ==> t.tx[i] == q.tx[i].(queued := i < n + m)
  {
    hide QInv, Post, SendsFor, Sorted, Room, QueuedFirst;
    ListFacts(q);
    n := QueuedLen(q.tx);
    QueuedFirstSplits(q.tx);
    m := TailPosts(q, n);
    Rejoined(q.tx, n, m, Post(q.tx[n..], q.now, Room(q.fifo, |q.tx|)).0);
  }

  lemma ListFacts(q: Queue)
    requires QInv(q)
    ensures Sorted(q.tx) && QueuedFirst(q.tx)
  {}

  /** The packets from the first that was not posted on. */
  lemma TailPosts(q: Queue, n: nat) returns (m: nat)
    requires Sorted(q.tx) && n <= |q.tx| && forall i :: 0 <= i < |q.tx| ==> (q.tx[i].queued <==> i < n)
    ensures n + m <= |q.tx|
    ensures forall i :: n <= i < |q.tx| ==> (i < n + m <==> q.tx[i].sendAt < q.now && |q.fifo| + (i - n) < 16)
    ensures var (r, posted) := Post(q.tx[n..], q.now, Room(q.fifo, |q.tx|));
            && |r| == |q.tx| - n && (forall i :: 0 <= i < |r| ==> r[i] == q.tx[n..][i].(queued := i < m))
            && posted == SendsFor(q.tx[n..n + m])
  {
    hide Post, SendsFor;
    var tail := q.tx[n..];
    assert forall i :: 0 <= i < |tail| ==> tail[i] == q.tx[n + i];
    m := RoomPosts(tail, q.now, Room(q.fifo, |q.tx|), if |q.fifo| < 16 then 16 - |q.fifo| else 0);
    assert tail[..m] == q.tx[n..n + m];
    forall i | n <= i < |q.tx|
      ensures i < n + m <==> q.tx[i].sendAt < q.now && |q.fifo| + (i - n) < 16
    {
      assert q.tx[i] == tail[i - n];
    }
  }

  lemma Rejoined(tx: seq<Packet>, n: nat, m: nat, rest: seq<Packet>)
    requires n <= |tx| && |rest| == |tx| - n && forall i :: 0 <= i < n ==> tx[i].queued
    requires forall i :: 0 <= i < |rest| ==> rest[i] == tx[n..][i].(queued := i < m)
    ensures forall i :: 0 <= i < |tx| ==> (tx[..n] + rest)[i] == tx[i].(queued := i < n + m)
  {
    forall i | 0 <= i < |tx|
      ensures (tx[..n] + rest)[i] == tx[i].(queued := i < n + m)
    {
      if i >= n {
        assert (tx[..n] + rest)[i] == rest[i - n] && tx[i] == tx[n..][i - n];
      }
    }
  }
}
