/** What the responder does by itself: time passes, the timer ticks, the service task takes its actions.
 * Every interface that is up ends up running, after its remaining probes and announcements. */
module ResponderProgress {
  import opened Bytes
  import opened TxQueue
  import opened Responder
  import opened ResponderInv
  import opened ResponderSteps
  import opened ResponderRuns

  // ---------- The measure ----------

  /** How many packets an interface in this state still sends by itself. */
  function Rank(state: PState): nat {
    match state
    case Probe1 => 6
    case Probe2 => 5
    case Probe3 => 4
    case Ann1 => 3
    case Ann2 => 2
    case Ann3 => 1
    case _ => 0
  }

  function Weight(tx: seq<Packet>, pcbs: map<Port, Pcb>): nat
    requires forall p: Port :: p in pcbs
  {
    if tx == [] then 0 else 1 + Rank(pcbs[tx[0].port].state) + Weight(tx[1..], pcbs)
  }

  /** How long until the last of the packets is due. */
  function Horizon(tx: seq<Packet>, now: nat): nat {
    if tx == [] then 0
    else
      var rest := Horizon(tx[1..], now);
      if tx[0].sendAt - now > rest then tx[0].sendAt - now else rest
  }

  function Potential(s: Sys): nat
    requires s.Wf()
  {
    1001 * Weight(s.q.tx, s.pcbs) + Horizon(s.q.tx, s.q.now)
  }

  lemma {:induction false} WeightInsert(tx: seq<Packet>, p: Packet, pcbs: map<Port, Pcb>)
    requires forall p: Port :: p in pcbs
    ensures Weight(Insert(tx, p), pcbs) == 1 + Rank(pcbs[p.port].state) + Weight(tx, pcbs)
    decreases |tx|
  {
    if tx != [] && tx[0].sendAt <= p.sendAt {
      WeightInsert(tx[1..], p, pcbs);
    }
  }

  lemma {:induction false} WeightDrops(tx: seq<Packet>, pcbs: map<Port, Pcb>, after: map<Port, Pcb>)
    requires forall p: Port :: p in pcbs && p in after && Rank(after[p].state) <= Rank(pcbs[p].state)
    ensures Weight(tx, after) <= Weight(tx, pcbs)
    decreases |tx|
  {
    if tx != [] {
      WeightDrops(tx[1..], pcbs, after);
    }
  }

  lemma {:induction false} HorizonInsert(tx: seq<Packet>, p: Packet, now: nat)
    ensures Horizon(Insert(tx, p), now) <= Horizon(tx, now) + if p.sendAt > now then p.sendAt - now else 0
    decreases |tx|
  {
    if tx != [] && tx[0].sendAt <= p.sendAt {
      HorizonInsert(tx[1..], p, now);
    }
  }

  lemma {:induction false} HorizonLater(tx: seq<Packet>, now: nat, ms: nat)
    ensures var h := Horizon(tx, now); Horizon(tx, now + ms) == if h > ms then h - ms else 0
    decreases |tx|
  {
    if tx != [] {
      HorizonLater(tx[1..], now, ms);
    }
  }

  lemma {:induction false} HorizonPosted(a: seq<Packet>, b: seq<Packet>, now: nat, pcbs: map<Port, Pcb>)
    requires SameButPosted(a, b) && forall p: Port :: p in pcbs
    ensures Horizon(a, now) == Horizon(b, now) && Weight(a, pcbs) == Weight(b, pcbs)
    decreases |a|
  {
    if a != [] {
      assert b[0] == a[0].(queued := b[0].queued);
      assert forall i :: 0 <= i < |a[1..]| ==> b[1..][i] == a[1..][i].(queued := b[1..][i].queued);
      HorizonPosted(a[1..], b[1..], now, pcbs);
    }
  }

  // ---------- One dispatch ----------

  /** The next action sends a packet. */
  predicate Sends(s: Sys) {
    s.q.fifo != [] && s.q.fifo[0].Tx? && Claimed(s.q.(fifo := s.q.fifo[1..]), s.q.fifo[0].id).Some?
  }

  lemma ScheduleNextShape(s: Sys, p: Packet)
    requires s.Wf()
    ensures var s' := ScheduleNext(s, p);
            && s'.q.now == s.q.now && s'.q.fifo == s.q.fifo
            && (forall o: Port :: Rank(s'.Of(o).state) <= Rank(s.Of(o).state))
            && (s'.q.tx == s.q.tx
                || (Rank(s'.Of(p.port).state) < Rank(s.Of(p.port).state)
                    && exists x: Packet ::
                         x.port == p.port && x.sendAt <= s.q.now + 1000 && s'.q.tx == Insert(s.q.tx, x)))
  {
    hide Insert, AnnounceFromProbe;
    var pcb := s.Of(p.port);
    var s' := ScheduleNext(s, p);
    match pcb.state {
      case Probe1 => assert s'.q.tx == Insert(s.q.tx, Packet(p.id, s.q.now + 250, false, p.port, p.body));
      case Probe2 => assert s'.q.tx == Insert(s.q.tx, Packet(p.id, s.q.now + 250, false, p.port, p.body));
      case Probe3 =>
        assert s'.q.tx == Insert(s.q.tx, Packet(s.q.nextId, s.q.now + 250, false, p.port, AnnounceFromProbe(p.body)));
      case Ann1 => assert s'.q.tx == Insert(s.q.tx, Packet(p.id, s.q.now + 1000, false, p.port, p.body));
      case Ann2 => assert s'.q.tx == Insert(s.q.tx, Packet(p.id, s.q.now + 1000, false, p.port, p.body));
      case _ =>
    }
  }

  lemma HandleDrops(s: Sys, s1: Sys, p: Packet)
    requires s.Wf() && s1.Wf() && s.q.tx != [] && s.q.tx[0].port == p.port && s1.q.tx == s.q.tx[1..]
    requires s1.q.now == s.q.now && s1.pcbs == s.pcbs
    ensures Potential(Handle(s1, p)) < Potential(s) && Handle(s1, p).q.fifo == s1.q.fifo
  {
    hide ScheduleNext, Insert;
    var w := Weight(s.q.tx[1..], s.pcbs);
    assert Weight(s.q.tx, s.pcbs) == 1 + Rank(s.Of(p.port).state) + w;
    if !s1.Of(p.port).state.Off? {
      var s' := ScheduleNext(s1, p);
      ScheduleNextShape(s1, p);
      assert forall o: Port :: s'.Of(o) == s'.pcbs[o] && s1.Of(o) == s.pcbs[o];
      WeightDrops(s.q.tx[1..], s.pcbs, s'.pcbs);
      if s'.q.tx != s1.q.tx {
        var x: Packet :| x.port == p.port && x.sendAt <= s.q.now + 1000 && s'.q.tx == Insert(s1.q.tx, x);
        WeightInsert(s1.q.tx, x, s'.pcbs);
        HorizonInsert(s1.q.tx, x, s.q.now);
      }
    }
  }

  /** Sending a packet lowers the potential; taking any other action changes nothing but the queue. */
  lemma TakeActionDrops(s: Sys)
    requires Inv(s) && s.q.fifo != []
    ensures RunAction(s).q.fifo == s.q.fifo[1..]
    ensures if Sends(s) then Potential(RunAction(s)) < Potential(s)
            else RunAction(s) == s.(q := s.q.(fifo := s.q.fifo[1..]))
  {
    hide Handle, Potential, QInv, PortInv;
    WellFormed(s);
    if Sends(s) {
      var q := s.q.(fifo := s.q.fifo[1..]);
      var p := Claimed(q, s.q.fifo[0].id).value;
      HandleDrops(s, s.(q := AfterClaim(q, p.id)), p);
    }
  }

  // ---------- Rounds ----------

  /** The service task takes every action waiting for it. */
  function DrainAll(s: Sys): (s': Sys)
    requires Inv(s)
    ensures Inv(s') && s'.q.fifo == []
    decreases |s.q.fifo|
  {
    RunActionKeeps(s);
    if s.q.fifo == [] then s else TakeActionDrops(s); DrainAll(RunAction(s))
  }

  lemma {:induction false} DrainDrops(s: Sys)
    requires Inv(s)
    ensures Potential(DrainAll(s)) <= Potential(s)
    ensures (exists p :: p in s.q.tx && p.queued) ==> Potential(DrainAll(s)) < Potential(s)
    decreases |s.q.fifo|
  {
    hide Inv, RunAction, Potential;
    WellFormed(s);
    if s.q.fifo == [] {
      NonePosted(s);
    } else {
      RunActionKeeps(s);
      TakeActionDrops(s);
      DrainDrops(RunAction(s));
      if !Sends(s) {
        FifoIsNotPotential(s, s.q.fifo[1..]);
      }
    }
  }

  lemma NonePosted(s: Sys)
    requires Inv(s) && s.q.fifo == []
    ensures forall p :: p in s.q.tx ==> !p.queued
  {
    assert Live(s.q.fifo, IdSet(s.q.tx)) == [];
    forall p | p in s.q.tx
      ensures !p.queued
    {
      QueuedIdsOf(s.q.tx, p.id);
    }
  }

  lemma FifoIsNotPotential(s: Sys, fifo: seq<Action>)
    requires s.Wf()
    ensures Potential(s.(q := s.q.(fifo := fifo))) == Potential(s)
  {}

  /** Some time passes, the timer ticks, and the service task catches up. */
  ghost function Round(s: Sys, ms: nat): (s': Sys)
    requires Inv(s)
    ensures Inv(s') && s'.q.fifo == []
  {
    StepKeeps(s, Wait(ms));
    StepKeeps(Step(s, Wait(ms)), TimerTick);
    DrainAll(Step(Step(s, Wait(ms)), TimerTick))
  }

  ghost function Rounds(s: Sys, waits: seq<nat>): (s': Sys)
    requires Inv(s)
    ensures Inv(s')
    decreases |waits|
  {
    if waits == [] then s else Rounds(Round(s, waits[0]), waits[1..])
  }

  /** A tick posts the head once it is due, if the action queue is not full. */
  lemma TickPostsHead(q: Queue)
    requires QInv(q) && q.tx != [] && Due(q.tx[0], q.now) && |q.fifo| < ACTION_QUEUE_LEN
    ensures Tick(q).tx != [] && Tick(q).tx[0].queued
  {
    hide Live, QueuedIds;
    var accept := Room(q.fifo, |q.tx|);
    if !q.tx[0].queued {
      assert q.tx[0..] == q.tx && accept[0];
      TickIsPost(q);
    } else {
      assert QueuedLen(q.tx) >= 1;
    }
  }

  lemma TickIsPost(q: Queue)
    requires q.tx != [] && !q.tx[0].queued
    ensures Tick(q).tx == Post(q.tx, q.now, Room(q.fifo, |q.tx|)).0
  {
    assert QueuedLen(q.tx) == 0 && q.tx[0..] == q.tx && q.tx[..0] == [];
    var r := Post(q.tx, q.now, Room(q.fifo, |q.tx|)).0;
    assert [] + r == r;
  }

  lemma {:induction false} AllDue(tx: seq<Packet>, now: nat, then': nat)
    requires Horizon(tx, now) == 0 && now < then'
    ensures forall p :: p in tx ==> Due(p, then')
    decreases |tx|
  {
    if tx != [] {
      AllDue(tx[1..], now, then');
      assert tx == [tx[0]] + tx[1..];
    }
  }

  /** Every round brings the responder nearer to rest, as long as a packet is scheduled. */
  lemma RoundDrops(s: Sys, ms: nat)
    requires Inv(s) && s.q.fifo == [] && ms > 0
    ensures Potential(Round(s, ms)) <= Potential(s)
    ensures s.q.tx != [] ==> Potential(Round(s, ms)) < Potential(s)
  {
    hide QInv, PortInv, Weight, Horizon, DrainAll, Tick, NoRepeats;
    WellFormed(s);
    var s1 := Step(s, Wait(ms));
    StepKeeps(s, Wait(ms));
    var s2 := Step(s1, TimerTick);
    StepKeeps(s1, TimerTick);
    TickBodies(s1.q);
    HorizonPosted(s1.q.tx, s2.q.tx, s1.q.now, s.pcbs);
    TickNow(s1.q);
    HorizonLater(s.q.tx, s.q.now, ms);
    DrainDrops(s2);
    if s.q.tx != [] && Horizon(s.q.tx, s.q.now) == 0 {
      AllDue(s.q.tx, s.q.now, s1.q.now);
      assert s.q.tx[0] in s.q.tx;
      TickPostsHead(s1.q);
      assert s2.q.tx[0] in s2.q.tx;
    }
  }

  lemma TickNow(q: Queue)
    ensures Tick(q).now == q.now
  {}

  /** Nothing is waiting to be sent, and every interface that is up is running. */
  ghost predicate Settled(s: Sys) {
    s.Wf() && s.q.tx == [] && forall port: Port :: s.Of(port).ready ==> s.Of(port).state.Running?
  }

  lemma EmptyIsSettled(s: Sys)
    requires Inv(s) && s.q.tx == []
    ensures Settled(s)
  {
    forall port: Port | s.Of(port).ready
      ensures s.Of(port).state.Running?
    {
      assert PortInv(s, port);
    }
  }

  lemma {:induction false} RoundsSettle(s: Sys, waits: seq<nat>)
    requires Inv(s) && s.q.fifo == [] && (forall i :: 0 <= i < |waits| ==> waits[i] > 0)
    requires s.q.tx == [] || |waits| >= Potential(s)
    ensures Settled(Rounds(s, waits))
    decreases |waits|
  {
    hide Inv, Round, Settled, Potential;
    WellFormed(s);
    if waits == [] {
      if s.q.tx != [] {
        HasPotential(s);
      }
      EmptyIsSettled(s);
    } else {
      var s' := Round(s, waits[0]);
      RoundDrops(s, waits[0]);
      if s.q.tx == [] {
        RoundAtRest(s, waits[0]);
      }
      RoundsSettle(s', waits[1..]);
    }
  }

  lemma HasPotential(s: Sys)
    requires s.Wf() && s.q.tx != []
    ensures Potential(s) > 0
  {}

  lemma RoundAtRest(s: Sys, ms: nat)
    requires Inv(s) && s.q.tx == [] && s.q.fifo == []
    ensures Round(s, ms).q.tx == []
  {
    hide QInv, PortInv;
    var s1 := Step(s, Wait(ms));
    StepKeeps(s, Wait(ms));
    var s2 := Step(s1, TimerTick);
    StepKeeps(s1, TimerTick);
    assert Room([], 0) == [];
    var none: seq<Action> := [];
    assert none + [] == none;
    assert s2.q.tx == [] && s2.q.fifo == [];
  }

  /** From any state of any run, after enough rounds, however long each takes, every interface that is up
   * has finished probing and announcing. */
  lemma EveryInterfaceRuns(s: Sys, waits: seq<nat>)
    requires Inv(s) && (forall i :: 0 <= i < |waits| ==> waits[i] > 0)
    requires |waits| >= Potential(s)
    ensures Settled(Rounds(DrainAll(s), waits))
  {
    hide Inv, DrainAll, Potential, Rounds;
    DrainDrops(s);
    RoundsSettle(DrainAll(s), waits);
  }
}
