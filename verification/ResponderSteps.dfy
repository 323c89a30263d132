/** The steps of the service task, the removal of services and the steps over all interfaces keep the
 * responder's invariant. */
module ResponderSteps {
  import opened Bytes
  import opened TxQueue
  import opened Responder
  import opened ResponderInv

  // ---------- Sending ----------

  lemma {:induction false} AnnouncesSomething(answers: seq<Answer>, servers: seq<Answer>)
    requires answers != [] || exists a :: a in servers && ((a.kind == Srv && a.service.Some?) || a.kind == A)
    ensures AnnounceAnswers(answers, servers) != []
    decreases |servers|
  {
    if servers != [] {
      var a := servers[0];
      var next := if a.kind == Srv && a.service.Some?
                  then AddHost(AddService(answers, a.service.value), a.service.value.host)
                  else if a.kind == A || a.kind == Aaaa then AddAnswer(answers, a.(service := None))
                  else answers;
      assert servers == [a] + servers[1..];
      AnnouncesSomething(next, servers[1..]);
    }
  }

  lemma AnnounceFromProbeLasts(b: Body, services: seq<Svc>, ip: bool)
    requires Claims(b, services, ip)
    ensures Lasting(AnnounceFromProbe(b))
  {
    if services != [] {
      assert SrvOf(services[0]) in b.servers;
    }
    AnnouncesSomething([], b.servers);
  }

  /** What taking the head of the list for sending leaves. */
  lemma ClaimLeaves(s: Sys)
    requires Inv(s) && s.q.fifo != [] && s.q.fifo[0].Tx? && s.q.fifo[0].id in IdSet(s.q.tx)
    ensures var id := s.q.fifo[0].id; var q := s.q.(fifo := s.q.fifo[1..]); var q' := AfterClaim(q, id);
            && Claimed(q, id).Some? && s.q.tx != [] && s.q.tx[0].id == id && q'.tx == s.q.tx[1..]
            && QInv(q') && Tx(id) !in q'.fifo && id !in IdSet(q'.tx) && id < q'.nextId && q'.now == s.q.now
            && Local(s, s.(q := q'), s.q.tx[0].port)
  {
    hide Live, QueuedIds, ListOk;
    EverySendIsForTheHead(s.q);
    assert s.q.tx == [s.q.tx[0]] + s.q.tx[1..];
    assert s.q.fifo[0] in s.q.fifo;
  }

  /** A packet that was at the head goes back into the list, later. */
  lemma SendAgain(s: Sys, id: nat, port: Port, body: Body, ms: nat)
    requires s.Wf() && QInv(s.q) && id < s.q.nextId && Tx(id) !in s.q.fifo && id !in IdSet(s.q.tx)
    ensures var s' := s.(q := SendAfter(s.q, id, port, body, ms));
            && QInv(s'.q) && Local(s, s', port)
            && forall x :: x in s'.q.tx <==> x in s.q.tx || x == Packet(id, s.q.now + ms, false, port, body)
  {
    hide QInv;
    SendAfterKeeps(s.q, id, port, body, ms);
    InsertMembers(s.q.tx, Packet(id, s.q.now + ms, false, port, body));
  }

  lemma SendFresh(s: Sys, port: Port, body: Body, ms: nat)
    requires s.Wf() && QInv(s.q)
    ensures var s' := s.(q := SendNew(s.q, port, body, ms));
            && QInv(s'.q) && Local(s, s', port)
            && forall x :: x in s'.q.tx <==> x in s.q.tx || x == Packet(s.q.nextId, s.q.now + ms, false, port, body)
  {
    hide QInv, SendNew;
    SendNewMembers(s.q, port, body, ms);
  }


  /** The packet a probing interface sends is its only one, and its probe. */
  lemma TheOnlyProbe(s: Sys, s1: Sys, p: Packet)
    requires Inv(s) && s.q.tx != [] && s1.q.tx == s.q.tx[1..] && p.id !in IdSet(s1.q.tx)
    requires s.q.tx[0].(queued := false) == p && s.Of(p.port).state.Probing()
    ensures forall x :: x in s1.q.tx ==> x.port != p.port
    ensures s.Of(p.port).ready ==> Claims(p.body, s.Of(p.port).services, s.Of(p.port).probeIp)
  {
    hide QInv, Claims, NoRepeats;
    var pcb := s.Of(p.port);
    assert PortInv(s, p.port);
    assert s.q.tx == [s.q.tx[0]] + s1.q.tx;
    assert s.q.tx[0] in s.q.tx;
    forall x | x in s1.q.tx
      ensures x.port != p.port
    {
      assert x.id in IdSet(s1.q.tx);
      assert x in s.q.tx;
    }
  }

  /** The next step of a probing interface: its probe again, or the announcement of what was probed. */
  lemma ProbeGoesOn(s: Sys, s1: Sys, p: Packet)
    requires Inv(s) && Local(s, s1, p.port) && QInv(s1.q) && s1.Of(p.port) == s.Of(p.port)
    requires s.q.tx != [] && s.q.tx[0].(queued := false) == p && s1.q.tx == s.q.tx[1..]
    requires p.id < s1.q.nextId && Tx(p.id) !in s1.q.fifo && p.id !in IdSet(s1.q.tx)
    requires s.Of(p.port).state.Probing()
    ensures Inv(ScheduleNext(s1, p))
  {
    hide QInv, SamePackets, SendNew, SendAfter, Claims, AnnounceFromProbe, Lasting, NoRepeats, IdSet, OnlyOne, PortInv;
    var pcb := s.Of(p.port);
    var s' := ScheduleNext(s1, p);
    PortFacts(s, p.port);
    TheOnlyProbe(s, s1, p);
    if pcb.state.Probe3? {
      NoneRepeat();
      var body := AnnounceFromProbe(p.body);
      SendFresh(s1, p.port, body, 250);
      if pcb.ready {
        AnnounceFromProbeLasts(p.body, pcb.services, pcb.probeIp);
      }
      var x := Packet(s1.q.nextId, s1.q.now + 250, false, p.port, body);
      SentLocal(s, s1, s', p.port, SendNew(s1.q, p.port, body, 250));
      assert x in s'.q.tx;
      AnnouncingPort(s', p.port, x);
    } else {
      SendAgain(s1, p.id, p.port, p.body, 250);
      var x := Packet(p.id, s1.q.now + 250, false, p.port, p.body);
      SentLocal(s, s1, s', p.port, SendAfter(s1.q, p.id, p.port, p.body, 250));
      assert x in s'.q.tx;
      ProbingPort(s', p.port, x);
    }
    LocalKeeps(s, s', p.port);
  }

  lemma ProbingPort(s: Sys, port: Port, x: Packet)
    requires s.Wf() && s.Of(port).state.Probing() && PcbOk(s.Of(port), s.named)
    requires x in s.q.tx && x.port == port && forall y :: y in s.q.tx && y.port == port ==> y == x
    requires s.Of(port).ready ==> Claims(x.body, s.Of(port).services, s.Of(port).probeIp)
    ensures PortInv(s, port)
  {
    hide PcbOk, Claims;
  }

  lemma AnnouncingPort(s: Sys, port: Port, x: Packet)
    requires s.Wf() && s.Of(port).state.Announcing() && PcbOk(s.Of(port), s.named)
    requires s.Of(port).ready ==> x in s.q.tx && x.port == port && Lasting(x.body)
    ensures PortInv(s, port)
  {
    hide PcbOk, Lasting;
  }

  /** Claiming a packet, sending another and changing the interface's state concern one interface. */
  lemma SentLocal(s: Sys, s1: Sys, s': Sys, port: Port, q: Queue)
    requires Local(s, s1, port) && Local(s1, s1.(q := q), port)
    requires s'.Wf() && s' == s1.Set(port, s'.Of(port)).(q := q)
    requires s.Of(port).ready ==> s'.Of(port).ready
    ensures Local(s, s', port)
  {
    hide SamePackets;
    LocalTrans(s, s1, s1.(q := q), port);
  }

  /** The next step of an announcing interface. */
  lemma AnnouncementGoesOn(s: Sys, s1: Sys, p: Packet)
    requires Inv(s) && Local(s, s1, p.port) && QInv(s1.q) && s1.Of(p.port) == s.Of(p.port)
    requires s.q.tx != [] && s.q.tx[0].(queued := false) == p && s1.q.tx == s.q.tx[1..]
    requires p.id < s1.q.nextId && Tx(p.id) !in s1.q.fifo && p.id !in IdSet(s1.q.tx)
    requires s.Of(p.port).state.Announcing()
    ensures Inv(ScheduleNext(s1, p))
  {
    hide QInv, SamePackets, SendAfter, Lasting, NoRepeats, IdSet, PortInv;
    var pcb := s.Of(p.port);
    var s' := ScheduleNext(s1, p);
    PortFacts(s, p.port);
    if pcb.state.Ann3? {
      SameRefl(s1.q.tx);
      SentLocal(s, s1, s', p.port, s1.q);
      SilentPort(s', p.port);
    } else {
      SendAgain(s1, p.id, p.port, p.body, 1000);
      SentLocal(s, s1, s', p.port, SendAfter(s1.q, p.id, p.port, p.body, 1000));
      var x := if pcb.ready then LastingPacket(s, p.port) else s.q.tx[0];
      assert s.q.tx == [s.q.tx[0]] + s1.q.tx;
      var y := if x == s.q.tx[0] then Packet(p.id, s1.q.now + 1000, false, p.port, p.body) else x;
      AnnouncingPort(s', p.port, y);
    }
    LocalKeeps(s, s', p.port);
  }

  ghost function LastingPacket(s: Sys, port: Port): (x: Packet)
    requires s.Wf() && PortInv(s, port) && s.Of(port).ready && s.Of(port).state.Announcing()
    ensures x in s.q.tx && x.port == port && Lasting(x.body)
  {
    hide Lasting, PcbOk;
    var x :| x in s.q.tx && x.port == port && Lasting(x.body);
    x
  }

  lemma SilentPort(s: Sys, port: Port)
    requires s.Wf() && PcbOk(s.Of(port), s.named)
    requires s.Of(port).state.Running? || s.Of(port).state.Off?
    ensures PortInv(s, port)
  {}

  lemma SilentStep(s: Sys, s1: Sys, port: Port)
    requires Inv(s) && Local(s, s1, port) && QInv(s1.q) && s1.Of(port) == s.Of(port)
    requires !s.Of(port).state.Probing() && !s.Of(port).state.Announcing()
    ensures Inv(s1)
  {
    hide QInv, SamePackets;
    assert PortInv(s, port);
    LocalKeeps(s, s1, port);
  }

  lemma LogIsFree(s: Sys, log: seq<Sent>)
    requires Inv(s)
    ensures Inv(s.(log := log))
  {
    forall p: Port
      ensures PortInv(s.(log := log), p)
    {
      assert PortInv(s, p);
      SameRefl(s.q.tx);
      Frame(s, s.(log := log), p);
    }
  }

  /** Taking an action from the queue, and sending the packet it names. */
  lemma RunActionKeeps(s: Sys)
    requires Inv(s)
    ensures Inv(RunAction(s))
  {
    hide QInv, SamePackets, AfterClaim, ScheduleNext, Claimed, IdSet, PortInv;
    if s.q.fifo != [] {
      var q := s.q.(fifo := s.q.fifo[1..]);
      if s.q.fifo[0].Other? {
        PopKeeps(s.q);
        QueueOnly(s, q);
      } else {
        var id := s.q.fifo[0].id;
        EverySendIsForTheHead(s.q);
        if id in IdSet(s.q.tx) {
          ClaimLeaves(s);
          ClaimedPacket(q, id);
          var p := Claimed(q, id).value;
          var log := s.log + [Sent(p.port, s.Of(p.port).state, s.q.now, p.id)];
          var s1 := s.(q := AfterClaim(q, id));
          Next(s, s1, p);
          LogIsFree(ScheduleNext(s1, p), log);
          SilentClaim(s, s1, p.port);
        } else {
          NotClaimed(q, id);
          QueueOnly(s, q);
        }
      }
    }
  }

  lemma NotClaimed(q: Queue, id: nat)
    requires Claimed(q, id).None?
    ensures AfterClaim(q, id) == q
  {}

  lemma ClaimedPacket(q: Queue, id: nat)
    requires Claimed(q, id).Some?
    ensures q.tx != [] && Claimed(q, id).value == q.tx[0].(queued := false) && q.tx[0].id == id
  {}

  lemma SilentClaim(s: Sys, s1: Sys, port: Port)
    requires Inv(s) && Local(s, s1, port) && QInv(s1.q) && s1.Of(port) == s.Of(port)
    ensures s.Of(port).state.Off? ==> Inv(s1)
  {
    hide QInv, SamePackets, PortInv;
    if s.Of(port).state.Off? {
      SilentStep(s, s1, port);
    }
  }

  lemma Next(s: Sys, s1: Sys, p: Packet)
    requires Inv(s) && Local(s, s1, p.port) && QInv(s1.q) && s1.Of(p.port) == s.Of(p.port)
    requires s.q.tx != [] && s.q.tx[0].(queued := false) == p && s1.q.tx == s.q.tx[1..]
    requires p.id < s1.q.nextId && Tx(p.id) !in s1.q.fifo && p.id !in IdSet(s1.q.tx)
    ensures Inv(ScheduleNext(s1, p))
  {
    hide QInv, SamePackets, PortInv, SendNew, SendAfter, IdSet;
    if s.Of(p.port).state.Probing() {
      ProbeGoesOn(s, s1, p);
    } else if s.Of(p.port).state.Announcing() {
      AnnouncementGoesOn(s, s1, p);
    } else {
      SilentStep(s, s1, p.port);
    }
  }

  /** A queue with the same packets. */
  lemma QueueOnly(s: Sys, q: Queue)
    requires Inv(s) && QInv(q) && q.tx == s.q.tx
    ensures Inv(s.(q := q))
  {
    hide QInv;
    SameRefl(q.tx);
    forall p: Port
      ensures PortInv(s.(q := q), p)
    {
      assert PortInv(s, p);
      Frame(s, s.(q := q), p);
    }
  }
}
