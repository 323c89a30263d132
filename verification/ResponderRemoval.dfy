/** Removing a service, or known answers, from the packets waiting to be sent keeps the invariant. */
module ResponderRemoval {
  import opened Bytes
  import opened TxQueue
  import opened Responder
  import opened ResponderInv

  // ---------- Lists ----------

  lemma {:induction false} DropOneIs(services: seq<Svc>, svc: Svc)
    requires NoRepeats(services)
    ensures NoRepeats(DropOne(services, svc))
    ensures forall x :: x in DropOne(services, svc) <==> x in services && x != svc
    ensures |DropOne(services, svc)| == |services| - if svc in services then 1 else 0
    decreases |services|
  {
    if services != [] {
      var rest := services[1..];
      assert forall i :: 0 <= i < |rest| ==> rest[i] == services[i + 1];
      assert services == [services[0]] + rest;
      assert services[0] !in rest;
      DropOneIs(rest, svc);
      if services[0] != svc {
        var r := DropOne(services, svc);
        assert forall i :: 1 <= i < |r| ==> r[i] == DropOne(rest, svc)[i - 1] && r[i] in DropOne(rest, svc);
      }
    }
  }

  lemma {:induction false} DropServiceIs(answers: seq<Answer>, svc: Svc)
    ensures forall a :: a in DropService(answers, svc) <==> a in answers && a.service != Some(svc)
    decreases |answers|
  {
    if answers != [] {
      DropServiceIs(answers[1..], svc);
      assert answers == [answers[0]] + answers[1..];
    }
  }

  lemma {:induction false} DropQuestionKeepsHosts(questions: seq<Question>, svc: Svc)
    ensures forall x :: x in questions && x.HostQ? ==> x in DropQuestion(questions, svc)
    decreases |questions|
  {
    if questions != [] {
      DropQuestionKeepsHosts(questions[1..], svc);
      assert questions == [questions[0]] + questions[1..];
    }
  }

  /** The packets left of an interface that had only one. */
  lemma ThinnedOnlyOne(after: seq<Packet>, before: seq<Packet>, port: Port)
    requires Thinned(after, before) && ListOk(before) && OnlyOne(before, port)
    ensures OnlyOne(after, port)
  {
    ThinnedFrom(after, before);
    ThinnedKeeps(after, before);
    forall x, y | x in after && y in after && x.port == port && y.port == port
      ensures x == y
    {
      assert x.id == y.id;
      var i :| 0 <= i < |after| && after[i] == x;
      var j :| 0 <= j < |after| && after[j] == y;
      assert i == j;
    }
  }

  // ---------- One packet ----------

  /** A probe that loses a service still claims what is left, unless nothing is. */
  lemma StripProbe(pcb: Pcb, body: Body, svc: Svc, named: bool)
    requires PcbOk(pcb, named) && pcb.ready && pcb.state.Probing() && Claims(body, pcb.services, pcb.probeIp)
    ensures var (pcb', body') := Strip(pcb, body, svc);
            && PcbOk(pcb', named) && pcb'.ready
            && (pcb'.state == pcb.state || pcb'.state.Running?)
            && (pcb'.state.Probing() ==> Claims(body', pcb'.services, pcb'.probeIp) && !Empty(body'))
  {
    hide NoRepeats;
    DropOneIs(pcb.services, svc);
    DropServiceIs(body.servers, svc);
    DropServiceIs(body.answers, svc);
    DropServiceIs(body.additional, svc);
    DropQuestionKeepsHosts(body.questions, svc);
    NoneRepeat();
    var (pcb', body') := Strip(pcb, body, svc);
    if pcb'.state.Probing() {
      assert forall x :: x in pcb'.services ==> x in pcb.services && x != svc;
      forall x | x in pcb'.services
        ensures SrvOf(x) in body'.servers
      {
        assert SrvOf(x) in body.servers;
      }
      if pcb'.services != [] {
        assert SrvOf(pcb'.services[0]) in body'.servers;
      }
    }
  }

  /** What removing a service does to an announcing interface. */
  lemma StripAnnouncement(pcb: Pcb, body: Body, svc: Svc, named: bool)
    requires PcbOk(pcb, named) && pcb.ready && pcb.state.Announcing()
    ensures var (pcb', body') := Strip(pcb, body, svc);
            && (pcb' == pcb || pcb' == pcb.(state := Running))
            && PcbOk(pcb', named)
            && (pcb' == pcb && Lasting(body) ==> Lasting(body') && !Empty(body'))
  {
    hide NoRepeats;
    DropServiceIs(body.answers, svc);
    DropServiceIs(body.servers, svc);
  }

  lemma StripOther(pcb: Pcb, body: Body, svc: Svc)
    requires !pcb.ready || (!pcb.state.IsProbing() && !pcb.state.Announcing())
    ensures Strip(pcb, body, svc).0 == pcb
  {}

  // ---------- The whole list ----------

  lemma {:induction false} StripThins(tx: seq<Packet>, pcbs: map<Port, Pcb>, svc: Svc)
    requires forall p: Port :: p in pcbs
    ensures Thinned(StripAll(tx, pcbs, svc).0, tx)
    decreases |tx|
  {
    hide Strip;
    if tx != [] {
      StripThins(tx[1..], pcbs[tx[0].port := Strip(pcbs[tx[0].port], tx[0].body, svc).0], svc);
    }
  }

  lemma StripStep(tx: seq<Packet>, pcbs: map<Port, Pcb>, svc: Svc)
    requires tx != [] && forall p: Port :: p in pcbs
    ensures var (pcb, body) := Strip(pcbs[tx[0].port], tx[0].body, svc);
            var rest := StripAll(tx[1..], pcbs[tx[0].port := pcb], svc);
            var r := StripAll(tx, pcbs, svc);
            && r.1 == rest.1
            && r.0 == if Empty(body) then rest.0 else [tx[0].(body := body)] + rest.0
  {
    hide Strip;
  }

  lemma {:induction false} StripAbsent(tx: seq<Packet>, pcbs: map<Port, Pcb>, svc: Svc, port: Port)
    requires (forall p: Port :: p in pcbs) && forall x :: x in tx ==> x.port != port
    ensures StripAll(tx, pcbs, svc).1[port] == pcbs[port]
    decreases |tx|
  {
    hide Strip, StripAll;
    if tx == [] {
      StripNothing(pcbs, svc);
    } else {
      StripStep(tx, pcbs, svc);
      StripAbsent(tx[1..], pcbs[tx[0].port := Strip(pcbs[tx[0].port], tx[0].body, svc).0], svc, port);
    }
  }

  lemma StripNothing(pcbs: map<Port, Pcb>, svc: Svc)
    requires forall p: Port :: p in pcbs
    ensures StripAll([], pcbs, svc) == ([], pcbs)
  {}

  /** An interface with one packet. */
  lemma {:induction false} StripOne(tx: seq<Packet>, pcbs: map<Port, Pcb>, svc: Svc, p: Packet)
    requires (forall p: Port :: p in pcbs) && p in tx && OnlyOne(tx, p.port) && DistinctIds(tx)
    ensures var (pcb, body) := Strip(pcbs[p.port], p.body, svc); var r := StripAll(tx, pcbs, svc);
            && r.1[p.port] == pcb
            && (!Empty(body) ==> p.(body := body) in r.0)
    decreases |tx|
  {
    hide Strip, StripAll, Empty;
    StripStep(tx, pcbs, svc);
    var rest := tx[1..];
    assert tx == [tx[0]] + rest;
    var next := pcbs[tx[0].port := Strip(pcbs[tx[0].port], tx[0].body, svc).0];
    if tx[0].port == p.port {
      assert tx[0] in tx;
      assert tx[0] == p;
      forall x | x in rest
        ensures x.port != p.port
      {
        assert x in tx;
        var i :| 0 <= i < |rest| && rest[i] == x;
        assert tx[i + 1] == x && tx[0].id != tx[i + 1].id;
      }
      StripAbsent(rest, next, svc, p.port);
    } else {
      assert p in rest;
      assert forall i :: 0 <= i < |rest| ==> rest[i] == tx[i + 1];
      StripOne(rest, next, svc, p);
    }
  }

  lemma {:induction false} StripUnconcerned(tx: seq<Packet>, pcbs: map<Port, Pcb>, svc: Svc, port: Port)
    requires (forall p: Port :: p in pcbs)
    requires !pcbs[port].ready || (!pcbs[port].state.IsProbing() && !pcbs[port].state.Announcing())
    ensures StripAll(tx, pcbs, svc).1[port] == pcbs[port]
    decreases |tx|
  {
    hide Strip, StripAll;
    if tx == [] {
      StripNothing(pcbs, svc);
    } else {
      StripStep(tx, pcbs, svc);
      StripOther(pcbs[port], tx[0].body, svc);
      StripUnconcerned(tx[1..], pcbs[tx[0].port := Strip(pcbs[tx[0].port], tx[0].body, svc).0], svc, port);
    }
  }

  /** An announcing interface stops announcing, or still has an announcement that lasts. */
  lemma {:induction false} StripAnnouncing(tx: seq<Packet>, pcbs: map<Port, Pcb>, svc: Svc, port: Port, named: bool)
    requires (forall p: Port :: p in pcbs) && PcbOk(pcbs[port], named) && pcbs[port].ready
             && pcbs[port].state.Announcing()
    ensures var r := StripAll(tx, pcbs, svc);
            && (r.1[port] == pcbs[port] || r.1[port] == pcbs[port].(state := Running))
            && PcbOk(r.1[port], named)
            && (r.1[port] == pcbs[port] && AnnouncementIsScheduled(tx, port) ==> AnnouncementIsScheduled(r.0, port))
    decreases |tx|
  {
    hide Strip, StripAll, PcbOk, Lasting, Empty;
    if tx == [] {
      StripNothing(pcbs, svc);
    } else {
      StripStep(tx, pcbs, svc);
      var p := tx[0];
      var (pcb, body) := Strip(pcbs[p.port], p.body, svc);
      var next := pcbs[p.port := pcb];
      assert tx == [p] + tx[1..];
      if p.port == port {
        StripAnnouncement(pcbs[port], p.body, svc, named);
        if pcb == pcbs[port] {
          StripAnnouncing(tx[1..], next, svc, port, named);
        } else {
          StripUnconcerned(tx[1..], next, svc, port);
        }
      } else {
        StripAnnouncing(tx[1..], next, svc, port, named);
      }
      var rest := StripAll(tx[1..], next, svc).0;
      var r := StripAll(tx, pcbs, svc);
      if r.1[port] == pcbs[port] && AnnouncementIsScheduled(tx, port) {
        var x :| x in tx && x.port == port && Lasting(x.body);
        if x == p {
          assert p.(body := body) in r.0;
        } else {
          assert x in tx[1..];
          var y :| y in rest && y.port == port && Lasting(y.body);
          assert y in r.0;
        }
      }
    }
  }

  /** One interface, after a service was removed from every scheduled packet. */
  lemma RemovedPort(s: Sys, svc: Svc, port: Port)
    requires Inv(s)
    ensures PortInv(RemoveService(s, svc), port)
    ensures RemoveService(s, svc).Of(port).ready == s.Of(port).ready
    ensures RemoveService(s, svc).Of(port).state.Dup? <==> s.Of(port).state.Dup?
  {
    hide Strip, StripAll, PcbOk, Lasting, Claims, QInv, NoRepeats, DropOne;
    var r := StripAll(s.q.tx, s.pcbs, svc);
    var pcb := s.Of(port);
    assert PortInv(s, port);
    PcbFacts(pcb, s.named);
    ListIsOk(s);
    StripThins(s.q.tx, s.pcbs, svc);
    if pcb.state.Probing() {
      ThinnedOnlyOne(r.0, s.q.tx, port);
    }
    if pcb.ready && pcb.state.Probing() {
      var p :| p in s.q.tx && p.port == port && Claims(p.body, pcb.services, pcb.probeIp);
      StripOne(s.q.tx, s.pcbs, svc, p);
      StripProbe(pcb, p.body, svc, s.named);
    } else if pcb.ready && pcb.state.Announcing() {
      StripAnnouncing(s.q.tx, s.pcbs, svc, port, s.named);
    } else {
      StripUnconcerned(s.q.tx, s.pcbs, svc, port);
    }
    StillUp(s, svc, port);
  }

  lemma PcbFacts(pcb: Pcb, named: bool)
    requires PcbOk(pcb, named)
    ensures pcb.ready ==> !pcb.state.Dup? && !pcb.state.Init?
  {}

  lemma ListIsOk(s: Sys)
    requires Inv(s)
    ensures ListOk(s.q.tx)
  {}

  lemma {:induction false} StripKeepsReady(tx: seq<Packet>, pcbs: map<Port, Pcb>, svc: Svc, port: Port)
    requires forall p: Port :: p in pcbs
    ensures StripAll(tx, pcbs, svc).1[port].ready == pcbs[port].ready
    decreases |tx|
  {
    hide StripAll;
    if tx == [] {
      StripNothing(pcbs, svc);
    } else {
      StripStep(tx, pcbs, svc);
      StripKeepsReady(tx[1..], pcbs[tx[0].port := Strip(pcbs[tx[0].port], tx[0].body, svc).0], svc, port);
    }
  }

  lemma StillUp(s: Sys, svc: Svc, port: Port)
    requires s.Wf()
    ensures PartnerUp(RemoveService(s, svc), port) == PartnerUp(s, port)
    ensures RemoveService(s, svc).Of(port).ready == s.Of(port).ready
  {
    hide StripAll;
    forall p: Port
      ensures RemoveService(s, svc).Of(p).ready == s.Of(p).ready
    {
      StripKeepsReady(s.q.tx, s.pcbs, svc, p);
    }
  }

  /** Removing a service: no probe is lost, and no interface is left announcing nothing. */
  lemma RemoveServiceKeeps(s: Sys, svc: Svc)
    requires Inv(s)
    ensures Inv(RemoveService(s, svc))
  {
    hide StripAll, PortInv, QInv;
    var s' := RemoveService(s, svc);
    StripThins(s.q.tx, s.pcbs, svc);
    ThinningKeeps(s.q, s'.q.tx);
    DropOneIs(s.services, svc);
    forall port: Port
      ensures PortInv(s', port)
    {
      RemovedPort(s, svc, port);
    }
  }

  // ---------- Known answers ----------

  lemma {:induction false} RemoveKnownIs(tx: seq<Packet>, port: Port, kind: RecordType, service: Option<Svc>)
    ensures var r := RemoveKnown(tx, port, kind, service);
            && Thinned(r, tx)
            && (forall x :: x in tx && !x.body.distributed ==> x in r)
            && (forall x :: x in r && x.port != port ==> x in tx)
            && (forall x :: x in tx && x.port != port ==> x in r)
    decreases |tx|
  {
    hide DropFirst;
    if tx != [] {
      RemoveKnownIs(tx[1..], port, kind, service);
      assert tx == [tx[0]] + tx[1..];
    }
  }

  /** Suppressing known answers touches neither probes nor announcements. */
  lemma RemoveKnownKeeps(s: Sys, port: Port, kind: RecordType, service: Option<Svc>)
    requires Inv(s)
    ensures Inv(s.(q := s.q.(tx := RemoveKnown(s.q.tx, port, kind, service))))
  {
    hide QInv, RemoveKnown, PcbOk, NoRepeats;
    var tx := RemoveKnown(s.q.tx, port, kind, service);
    var s' := s.(q := s.q.(tx := tx));
    RemoveKnownIs(s.q.tx, port, kind, service);
    ThinningKeeps(s.q, tx);
    assert PortInv(s, port);
    var pcb := s.Of(port);
    ListIsOk(s);
    if pcb.state.Probing() {
      ThinnedOnlyOne(tx, s.q.tx, port);
    }
    assert PortInv(s', port);
    LocalKeeps(s, s', port);
  }
}
