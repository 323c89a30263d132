/** The invariant of the responder, and the operations on one interface that keep it. */
module ResponderInv {
  import opened Bytes
  import opened TxQueue
  import opened Responder

  // ---------- The invariant of one interface ----------

  predicate OnlyOne(tx: seq<Packet>, port: Port) {
    forall x, y :: x in tx && y in tx && x.port == port && y.port == port ==> x == y
  }

  function SrvOf(svc: Svc): Answer {
    Answer(Srv, Some(svc), None)
  }

  /** The packet claims every service probed, and asks for and claims the host's name if addresses are probed.  It
   * need not ask for every service: see IsProbe. */
  predicate Claims(b: Body, services: seq<Svc>, ip: bool) {
    && b.answers == [] && b.additional == [] && !b.distributed
    && (services != [] || ip)
    && (forall svc :: svc in services ==> SrvOf(svc) in b.servers)
    && (ip ==> exists x :: x in b.questions && x.HostQ?)
    && (ip ==> exists a :: a in b.servers && a.kind == A && a.service == None)
  }

  /** The packet is the probe of the services: it claims each of them, and asks for each of them. */
  predicate IsProbe(b: Body, services: seq<Svc>, ip: bool) {
    Claims(b, services, ip) && forall svc :: svc in services ==> ServiceQ(svc) in b.questions
  }

  /** An announcement that removing services cannot empty without ending the announcing. */
  predicate Lasting(b: Body) {
    !b.distributed && (b.answers != [] || exists a :: a in b.servers && a.service == None)
  }

  /** While probing, the interface has a packet that claims what is probed. */
  predicate ProbeIsScheduled(tx: seq<Packet>, port: Port, pcb: Pcb) {
    exists p :: p in tx && p.port == port && Claims(p.body, pcb.services, pcb.probeIp)
  }

  predicate AnnouncementIsScheduled(tx: seq<Packet>, port: Port) {
    exists p :: p in tx && p.port == port && Lasting(p.body)
  }

  /** The partner of a duplicate is up. */
  ghost predicate PartnerUp(s: Sys, port: Port)
    requires s.Wf()
  {
    match Partner(s, port)
    case None => false
    case Some(other) => s.Of(other).ready
  }

  predicate PcbOk(pcb: Pcb, named: bool) {
    && !pcb.state.Init?
    && (pcb.state.Dup? ==> !pcb.ready)
    && (pcb.ready ==> !pcb.state.Off?)
    && (pcb.state.Probing() || pcb.state.Announcing() ==> named)
    && (pcb.ready ==> (pcb.probeRunning <==> pcb.state.Probing()))
    && (pcb.ready && !pcb.state.Probing() ==> pcb.services == [] && !pcb.probeIp)
    && (!named ==> pcb.services == [] && !pcb.probeIp && !pcb.probeRunning)
    && NoRepeats(pcb.services)
  }

  ghost predicate PortInv(s: Sys, port: Port)
    requires s.Wf()
  {
    var pcb := s.Of(port);
    && PcbOk(pcb, s.named)
    && (pcb.state.Dup? ==> PartnerUp(s, port))
    && (pcb.state.Probing() ==> OnlyOne(s.q.tx, port))
    && (pcb.ready && pcb.state.Probing() ==> ProbeIsScheduled(s.q.tx, port, pcb))
    && (pcb.ready && pcb.state.Announcing() ==> AnnouncementIsScheduled(s.q.tx, port))
  }

  ghost predicate Inv(s: Sys) {
    && s.Wf() && QInv(s.q) && NoRepeats(s.services)
    && forall port: Port :: PortInv(s, port)
  }

  lemma WellFormed(s: Sys)
    requires Inv(s)
    ensures s.Wf()
  {}

  // ---------- Frames ----------

  /** The packets of an interface are the same. */
  predicate SamePackets(a: seq<Packet>, b: seq<Packet>, port: Port) {
    forall x :: x in a + b && x.port == port ==> x in a && x in b
  }

  /** What an interface's invariant depends on. */
  lemma Frame(s: Sys, s': Sys, port: Port)
    requires s.Wf() && s'.Wf() && PortInv(s, port)
    requires s'.Of(port) == s.Of(port) && s'.partner == s.partner && (s.named ==> s'.named)
    requires s.Of(port).state.Dup? && PartnerUp(s, port) ==> PartnerUp(s', port)
    requires SamePackets(s.q.tx, s'.q.tx, port)
    ensures PortInv(s', port)
  {
    assert forall x :: x in s.q.tx ==> x in s.q.tx + s'.q.tx;
    assert forall x :: x in s'.q.tx ==> x in s.q.tx + s'.q.tx;
  }

  lemma InsertOthers(tx: seq<Packet>, p: Packet, other: Port)
    requires other != p.port
    ensures SamePackets(tx, Insert(tx, p), other)
  {
    InsertMembers(tx, p);
  }

  // ---------- Probe packets ----------

  lemma {:induction false} AddHostsGrows(answers: seq<Answer>, services: seq<Svc>)
    ensures forall a :: a in answers ==> a in AddHosts(answers, services)
    ensures services != [] ==> exists a :: a in AddHosts(answers, services) && a.kind == A && a.service == None
    decreases |services|
  {
    if services != [] {
      var next := AddHost(answers, services[0].host);
      AddHostsGrows(next, services[1..]);
      assert Answer(A, None, Some(services[0].host)) in next;
    }
  }

  lemma {:induction false} SrvAnswersAll(services: seq<Svc>)
    ensures forall svc :: svc in services ==> SrvOf(svc) in SrvAnswers(services)
    decreases |services|
  {
    if services != [] {
      SrvAnswersAll(services[..|services| - 1]);
      assert services == services[..|services| - 1] + [services[|services| - 1]];
    }
  }

  lemma {:induction false} ServiceQuestionsAll(services: seq<Svc>)
    ensures forall svc :: svc in services ==> ServiceQ(svc) in ServiceQuestions(services)
    decreases |services|
  {
    if services != [] {
      ServiceQuestionsAll(services[..|services| - 1]);
      assert services == services[..|services| - 1] + [services[|services| - 1]];
    }
  }

  lemma {:induction false} HostQuestionsGrow(questions: seq<Question>, services: seq<Svc>)
    ensures forall x :: x in questions ==> x in HostQuestions(questions, services)
    decreases |services|
  {
    if services != [] {
      HostQuestionsGrow(AddQuestion(questions, HostQ(Some(services[0]))), services[1..]);
    }
  }

  lemma ProbeBodyIsProbe(services: seq<Svc>, ip: bool)
    requires services != [] || ip
    ensures IsProbe(ProbeBody(services, ip), services, ip)
  {
    SrvAnswersAll(services);
    ServiceQuestionsAll(services);
    HostQuestionsGrow(AddQuestion(ServiceQuestions(services), HostQ(None)), services);
    if ip {
      var questions := AddQuestion(ServiceQuestions(services), HostQ(None));
      HostQuestionsGrow(questions, services);
      assert HostQ(None) in questions;
      AddHostsGrows(SrvAnswers(services), services);
      if services == [] {
        assert Answer(A, None, Some(0)) in AddHost(SrvAnswers(services), 0);
      }
    }
  }

  lemma {:induction false} NewOnesAre(services: seq<Svc>, probed: seq<Svc>)
    requires NoRepeats(services)
    ensures NoRepeats(NewOnes(services, probed))
    ensures forall svc :: svc in NewOnes(services, probed) <==> svc in services && svc !in probed
    decreases |services|
  {
    if services != [] {
      var rest := services[1..];
      assert forall i :: 0 <= i < |rest| ==> rest[i] == services[i + 1];
      assert services == [services[0]] + rest;
      NewOnesAre(rest, probed);
      var r := NewOnes(services, probed);
      assert services[0] !in rest;
      if services[0] !in probed {
        assert forall i :: 1 <= i < |r| ==> r[i] == NewOnes(rest, probed)[i - 1] && r[i] in NewOnes(rest, probed);
      }
    }
  }

  lemma NoRepeatsAppend(a: seq<Svc>, b: seq<Svc>)
    requires NoRepeats(a) && NoRepeats(b) && forall x :: x in a ==> x !in b
    ensures NoRepeats(a + b)
  {
    var c := a + b;
    forall i, j | 0 <= i < j < |c|
      ensures c[i] != c[j]
    {
      if i < |a| <= j {
        assert c[i] in a && c[j] in b;
      }
    }
  }

  /** Re-probing while probing covers the old and the new services, each once, and nothing else. */
  lemma ReprobeIsUnion(s: Sys, port: Port, services: seq<Svc>, ip: bool, random: nat)
    requires s.Wf() && s.named && s.Of(port).state.IsProbing()
    requires NoRepeats(services) && NoRepeats(s.Of(port).services)
    ensures var before := s.Of(port); var after := InitProbe(s, port, services, ip, random).Of(port);
            && NoRepeats(after.services)
            && (forall svc :: svc in after.services <==> svc in before.services || svc in services)
            && after.probeIp == (before.probeIp || ip)
            && InitProbe(s, port, services, ip, random).overran == s.overran
  {
    var old' := s.Of(port).services;
    var fresh' := NewOnes(services, old');
    NewOnesAre(services, old');
    NoRepeatsAppend(fresh', old');
    assert |fresh' + old'| == |fresh'| + |old'|;
  }

  // ---------- Operations on one interface ----------

  /** Only `port` is concerned; its network side does not go down. */
  ghost predicate Local(s: Sys, s': Sys, port: Port) {
    && s.Wf() && s'.Wf()
    && s'.partner == s.partner && s'.named == s.named && s'.services == s.services
    && (forall p: Port :: p != port ==> s'.Of(p) == s.Of(p) && SamePackets(s.q.tx, s'.q.tx, p))
    && (s.Of(port).ready ==> s'.Of(port).ready)
  }

  lemma LocalKeeps(s: Sys, s': Sys, port: Port)
    requires Inv(s) && Local(s, s', port) && QInv(s'.q) && PortInv(s', port)
    ensures Inv(s')
  {
    forall p: Port
      ensures PortInv(s', p)
    {
      if p != port {
        Frame(s, s', p);
      }
    }
  }

  lemma ClearOthers(s: Sys, port: Port)
    requires s.Wf() && QInv(s.q)
    ensures var s' := s.(q := s.q.(tx := Without(s.q.tx, port)));
            Local(s, s', port) && QInv(s'.q) && forall x :: x in s'.q.tx ==> x.port != port
  {
    WithoutThins(s.q.tx, port);
    ThinningKeeps(s.q, Without(s.q.tx, port));
  }

  lemma SendNewMembers(q: Queue, port: Port, body: Body, ms: nat)
    requires QInv(q)
    ensures var q' := SendNew(q, port, body, ms); var p := Packet(q.nextId, q.now + ms, false, port, body);
            && QInv(q') && p in q'.tx && (forall x :: x in q'.tx <==> x == p || x in q.tx)
            && forall other: Port :: other != port ==> SamePackets(q.tx, q'.tx, other)
  {
    SendNewKeeps(q, port, body, ms);
    InsertMembers(q.tx, Packet(q.nextId, q.now + ms, false, port, body));
  }

  lemma MergedServices(s: Sys, port: Port, services: seq<Svc>, ip: bool, random: nat)
    requires s.Wf() && NoRepeats(services) && NoRepeats(s.Of(port).services)
    requires s.Of(port).state.IsProbing() ==> forall x :: x in services ==> x !in s.Of(port).services
    ensures var merged := StartProbe(s, port, services, ip, random).Of(port).services;
            && NoRepeats(merged)
            && merged == if s.Of(port).state.IsProbing() then services + s.Of(port).services else services
  {
    var old' := s.Of(port).services;
    if s.Of(port).state.IsProbing() {
      NoRepeatsAppend(services, old');
      assert |services + old'| == |services| + |old'|;
      assert services + old' == [] ==> services == [];
    } else {
      assert (services + old')[..|services|] == services;
    }
  }

  /** Starting to probe, whatever the interface was doing. */
  lemma StartProbeOk(s: Sys, port: Port, services: seq<Svc>, ip: bool, random: nat)
    requires s.Wf() && QInv(s.q) && s.named && forall x :: x in s.q.tx ==> x.port != port
    requires NoRepeats(services) && NoRepeats(s.Of(port).services)
    requires s.Of(port).state.IsProbing() ==> forall x :: x in services ==> x !in s.Of(port).services
    requires services != [] || ip || (s.Of(port).state.IsProbing() && s.Of(port).services != [])
    ensures var s' := StartProbe(s, port, services, ip, random);
            Local(s, s', port) && QInv(s'.q) && PortInv(s', port) && s'.log == s.log
  {
    hide QInv, SendNew, ProbeBody, Claims, NoRepeats, SamePackets;
    MergedServices(s, port, services, ip, random);
    var pcb := s.Of(port);
    var s' := StartProbe(s, port, services, ip, random);
    var merged := s'.Of(port).services;
    var withIp := pcb.probeIp || ip;
    var body := ProbeBody(merged, withIp);
    ProbeBodyIsProbe(merged, withIp);
    SendNewMembers(s.q, port, body, (if pcb.failed > 5 then 1000 else 120) + random % 128);
    assert s'.q == SendNew(s.q, port, body, (if pcb.failed > 5 then 1000 else 120) + random % 128);
  }

  /** What an interface must be like for a probe to be started on it. */
  ghost predicate CanProbe(s: Sys, port: Port)
    requires s.Wf()
  {
    var pcb := s.Of(port);
    && NoRepeats(pcb.services)
    && (!s.named ==> pcb.services == [] && !pcb.probeIp && !pcb.probeRunning)
  }

  lemma InitProbeOk(s: Sys, port: Port, services: seq<Svc>, ip: bool, random: nat)
    requires s.Wf() && QInv(s.q) && CanProbe(s, port) && NoRepeats(services)
    requires services != [] || ip
    ensures var s' := InitProbe(s, port, services, ip, random);
            && Local(s, s', port) && QInv(s'.q) && PortInv(s', port) && s'.log == s.log
            && (s'.Of(port).state == if s.named then Probe1 else Running)
  {
    hide QInv, Without, StartProbe, SamePackets;
    ClearOthers(s, port);
    var cleared := s.(q := s.q.(tx := Without(s.q.tx, port)));
    var pcb := s.Of(port);
    var s' := InitProbe(s, port, services, ip, random);
    if !s.named {
      SameRefl(cleared.q.tx);
      LocalTrans(s, cleared, s', port);
    } else if pcb.state.IsProbing() {
      NewOnesAre(services, pcb.services);
      var fresh' := NewOnes(services, pcb.services);
      if services != [] && fresh' == [] {
        assert services[0] in pcb.services;
      }
      StartProbeOk(cleared, port, fresh', ip, random);
      LocalTrans(s, cleared, s', port);
      StartsAtProbe1(cleared, port, fresh', ip, random);
    } else {
      StartProbeOk(cleared, port, services, ip, random);
      LocalTrans(s, cleared, s', port);
      StartsAtProbe1(cleared, port, services, ip, random);
    }
  }

  lemma StartsAtProbe1(s: Sys, port: Port, services: seq<Svc>, ip: bool, random: nat)
    requires s.Wf()
    ensures StartProbe(s, port, services, ip, random).Of(port).state.Probe1?
  {}

  lemma SameRefl(a: seq<Packet>)
    ensures forall p: Port :: SamePackets(a, a, p)
  {}

  lemma SameTrans(a: seq<Packet>, b: seq<Packet>, c: seq<Packet>, port: Port)
    requires SamePackets(a, b, port) && SamePackets(b, c, port)
    ensures SamePackets(a, c, port)
  {
    assert forall x :: x in a || x in b ==> x in a + b;
    assert forall x :: x in b || x in c ==> x in b + c;
  }

  lemma LocalTrans(s: Sys, t: Sys, u: Sys, port: Port)
    requires Local(s, t, port) && Local(t, u, port)
    ensures Local(s, u, port)
  {
    hide SamePackets;
    forall p: Port | p != port
      ensures u.Of(p) == s.Of(p) && SamePackets(s.q.tx, u.q.tx, p)
    {
      SameTrans(s.q.tx, t.q.tx, u.q.tx, p);
    }
  }

  lemma InitProbeKeeps(s: Sys, port: Port, services: seq<Svc>, ip: bool, random: nat)
    requires Inv(s) && NoRepeats(services) && (services != [] || ip)
    ensures Inv(InitProbe(s, port, services, ip, random))
  {
    hide QInv, SamePackets, InitProbe;
    assert PortInv(s, port);
    InitProbeOk(s, port, services, ip, random);
    LocalKeeps(s, InitProbe(s, port, services, ip, random), port);
  }

  /** Turning an interface on: it ends up probing (or just running, with no host name), or as it was. */
  lemma EnableOk(s: Sys, port: Port, up: bool, random: nat)
    requires s.Wf() && QInv(s.q) && NoRepeats(s.services) && CanProbe(s, port)
    requires !s.Of(port).ready && !up ==> PortInv(s, port)
    ensures var s' := Enable(s, port, up, random);
            && Local(s, s', port) && QInv(s'.q) && PortInv(s', port) && s'.log == s.log
            && s'.Of(port).ready == (s.Of(port).ready || up)
            && s'.Of(port).state == (if !s'.Of(port).ready then s.Of(port).state else if s.named then Probe1
                 else Running)
  {
    hide QInv, SamePackets, InitProbe;
    var pcb := s.Of(port);
    SameRefl(s.q.tx);
    if !pcb.ready && !up {
      var s' := s.Set(port, pcb.(failed := 0));
      Failed0(s, port);
    } else {
      var on := s.Set(port, pcb.(ready := true));
      InitProbeOk(on, port, on.services, true, random);
      LocalTrans(s, on, Enable(s, port, up, random), port);
    }
  }

  lemma Failed0(s: Sys, port: Port)
    requires s.Wf() && PortInv(s, port)
    ensures PortInv(s.Set(port, s.Of(port).(failed := 0)), port)
  {}

  lemma EnableKeeps(s: Sys, port: Port, up: bool, random: nat)
    requires Inv(s)
    ensures Inv(Enable(s, port, up, random))
  {
    hide QInv, SamePackets, Enable;
    assert PortInv(s, port);
    EnableOk(s, port, up, random);
    LocalKeeps(s, Enable(s, port, up, random), port);
  }

  /** The duplicate of an interface that goes down: turned off, then on again if its network side starts. */
  lemma FreeDuplicate(s: Sys, down: Sys, port: Port, other: Port, up: bool, random: nat)
    requires s.Wf() && down.Wf() && other != port && PcbOk(down.Of(other), down.named) && down.Of(other).state.Dup?
    requires QInv(down.q) && NoRepeats(down.services)
    requires forall p: Port :: p != port ==> SamePackets(s.q.tx, down.q.tx, p)
    ensures var e := Enable(down.Set(other, down.Of(other).(state := Off)), other, up, random);
            && QInv(e.q) && PortInv(e, other) && e.Wf()
            && e.partner == down.partner && e.named == down.named && e.services == down.services
            && (forall p: Port :: p != port && p != other ==> SamePackets(s.q.tx, e.q.tx, p))
            && (forall p: Port :: p != other ==> e.Of(p) == down.Of(p))
            && e.Of(other).ready == up
            && e.Of(other).state == (if !up then Off else if down.named then Probe1 else Running)
  {
    hide QInv, SamePackets, Enable;
    var off := down.Set(other, down.Of(other).(state := Off));
    OffIsOk(off, other);
    EnableOk(off, other, up, random);
    var e := Enable(off, other, up, random);
    forall p: Port | p != port && p != other
      ensures SamePackets(s.q.tx, e.q.tx, p)
    {
      SameTrans(s.q.tx, off.q.tx, e.q.tx, p);
    }
  }

  lemma DisableKeeps(s: Sys, port: Port, up: bool, random: nat)
    requires Inv(s)
    ensures Inv(Disable(s, port, up, random))
  {
    hide QInv, SamePackets, Enable, Without, OnlyOne, ProbeIsScheduled, AnnouncementIsScheduled, NoRepeats, PortInv;
    PortFacts(s, port);
    SameRefl(s.q.tx);
    if s.Of(port).ready {
      ClearOthers(s, port);
      var down := s.(q := s.q.(tx := Without(s.q.tx, port))).Set(port, DOWN);
      NoneRepeat();
      if Partner(s, port).Some? && s.Of(Partner(s, port).value).state.Dup? {
        var other := Partner(s, port).value;
        PartnerOf(s, port, other);
        PortFacts(s, other);
        FreeDuplicate(s, down, port, other, up, random);
        DisabledAll(s, Enable(down.Set(other, down.Of(other).(state := Off)), other, up, random), port, other);
      } else {
        DisabledAll(s, down, port, port);
      }
    } else {
      DisabledAll(s, s, port, port);
    }
  }

  lemma NoneRepeat()
    ensures NoRepeats<Svc>([])
  {}

  lemma PortFacts(s: Sys, port: Port)
    requires Inv(s)
    ensures PcbOk(s.Of(port), s.named)
    ensures s.Of(port).state.Dup? ==> PartnerUp(s, port)
  {
    assert PortInv(s, port);
  }

  /** Disabling an interface frees its duplicate: the partner is on again, or off, never left waiting. */
  lemma DisableFrees(s: Sys, port: Port, up: bool, random: nat)
    requires Inv(s)
    ensures var s' := Disable(s, port, up, random);
            && s'.Of(port).state.Off? && !s'.Of(port).ready
            && forall other :: Partner(s, port) == Some(other) && s.Of(other).state.Dup? ==>
                 if up then s'.Of(other).ready && s'.Of(other).state == (if s.named then Probe1 else Running)
                 else s'.Of(other).state.Off?
  {
    hide QInv, SamePackets, Enable, Without, OnlyOne, ProbeIsScheduled, AnnouncementIsScheduled, NoRepeats, PortInv;
    PortFacts(s, port);
    SameRefl(s.q.tx);
    if s.Of(port).ready {
      ClearOthers(s, port);
      var down := s.(q := s.q.(tx := Without(s.q.tx, port))).Set(port, DOWN);
      if Partner(s, port).Some? && s.Of(Partner(s, port).value).state.Dup? {
        var other := Partner(s, port).value;
        PartnerOf(s, port, other);
        PortFacts(s, other);
        FreeDuplicate(s, down, port, other, up, random);
      }
    } else if Partner(s, port).Some? {
      PartnerOf(s, port, Partner(s, port).value);
      PortFacts(s, Partner(s, port).value);
    }
  }

  lemma OffIsOk(s: Sys, port: Port)
    requires s.Wf() && s.Of(port).state.Off? && !s.Of(port).ready && NoRepeats(s.Of(port).services)
    requires !s.named ==> s.Of(port).services == [] && !s.Of(port).probeIp && !s.Of(port).probeRunning
    ensures PortInv(s, port)
  {}

  /** The end of disabling `port`, once `t` has dealt with its duplicate `other`, if there is one. */
  lemma DisabledAll(s: Sys, t: Sys, port: Port, other: Port)
    requires Inv(s) && t.Wf() && QInv(t.q) && t.partner == s.partner && t.named == s.named && t.services == s.services
    requires !t.Of(port).ready && NoRepeats(t.Of(port).services)
    requires !t.named ==> t.Of(port).services == [] && !t.Of(port).probeIp && !t.Of(port).probeRunning
    requires other != port ==> PortInv(t, other) && !t.Of(other).state.Dup?
    requires forall p: Port :: p != port && p != other ==> t.Of(p) == s.Of(p) && SamePackets(s.q.tx, t.q.tx, p)
    requires forall p: Port :: p != other && Partner(s, p) == Some(port) && s.Of(p).state.Dup? ==> !s.Of(port).ready
    requires other != port ==> Partner(s, port) == Some(other)
    ensures Inv(t.Set(port, t.Of(port).(state := Off)))
  {
    hide QInv, SamePackets, OnlyOne, ProbeIsScheduled, AnnouncementIsScheduled, PcbOk;
    var s' := t.Set(port, t.Of(port).(state := Off));
    forall p: Port
      ensures PortInv(s', p)
    {
      if p == port {
        OffIsOk(s', port);
      } else if p == other {
        assert PortInv(t, p);
      } else {
        assert PortInv(s, p);
        if s.Of(p).state.Dup? {
          var q := Partner(s, p).value;
          PartnerOf(s, p, q);
          assert q != port && q != other;
        }
        Frame(s, s', p);
      }
    }
  }

  lemma PartnerOf(s: Sys, p: Port, port: Port)
    requires s.Wf() && Partner(s, p) == Some(port)
    ensures Partner(s, port) == Some(p)
  {}

  // ---------- Announcing ----------

  lemma {:induction false} AddServicesGrows(answers: seq<Answer>, services: seq<Svc>)
    ensures forall a :: a in answers ==> a in AddServices(answers, services)
    ensures services != [] ==> AddServices(answers, services) != []
    decreases |services|
  {
    if services != [] {
      AddServicesGrows(AddService(answers, services[0]), services[1..]);
      assert Answer(SdPtr, Some(services[0]), None) in AddService(answers, services[0]);
    }
  }

  lemma AnnounceBodyLasts(services: seq<Svc>, ip: bool)
    requires services != [] || ip
    ensures Lasting(AnnounceBody(services, ip))
  {
    AddServicesGrows([], services);
    if services == [] {
      assert Answer(A, None, Some(0)) in AddHost([], 0);
    }
  }

  lemma ExtendLasts(body: Body, services: seq<Svc>, ip: bool)
    requires Lasting(body)
    ensures Lasting(Extend(body, services, ip))
  {
    var more := AddServices(body.answers, services);
    AddServicesGrows(body.answers, services);
    AddHostsGrows(more, services);
    if body.answers != [] {
      assert body.answers[0] in more;
    }
  }

  lemma AnnounceKeeps(s: Sys, port: Port, services: seq<Svc>, ip: bool, random: nat)
    requires Inv(s) && NoRepeats(services) && (services != [] || ip)
    ensures Inv(Announce(s, port, services, ip, random))
  {
    hide QInv, SamePackets, InitProbe, SendNew, AnnounceBody, Extend, Claims, Lasting, OnlyOne;
    var pcb := s.Of(port);
    var s' := Announce(s, port, services, ip, random);
    assert PortInv(s, port);
    if !pcb.ready {
    } else if pcb.state.IsProbing() {
      InitProbeKeeps(s, port, services, ip, random);
    } else if pcb.state.Announcing() {
      var i := FirstOf(s.q.tx, port);
      if i < |s.q.tx| {
        var p := s.q.tx[i];
        var body := Extend(p.body, services, ip);
        EditOne(s.q, i, body);
        ExtendedStillScheduled(s.q.tx, port, i, services, ip);
        LocalKeeps(s, s', port);
      }
    } else if pcb.state.Running? && s.named {
      SendNewMembers(s.q, port, AnnounceBody(services, ip), 0);
      AnnounceBodyLasts(services, ip);
      LocalKeeps(s, s', port);
    }
  }

  lemma ExtendedStillScheduled(tx: seq<Packet>, port: Port, i: nat, services: seq<Svc>, ip: bool)
    requires i < |tx| && AnnouncementIsScheduled(tx, port)
    ensures AnnouncementIsScheduled(tx[i := tx[i].(body := Extend(tx[i].body, services, ip))], port)
  {
    hide Extend, Lasting;
    var p :| p in tx && p.port == port && Lasting(p.body);
    var j :| 0 <= j < |tx| && tx[j] == p;
    var tx' := tx[i := tx[i].(body := Extend(tx[i].body, services, ip))];
    if j == i {
      ExtendLasts(p.body, services, ip);
      assert tx'[i] in tx';
    } else {
      assert tx'[j] == p;
    }
  }

  lemma {:induction false} ThinnedSelf(tx: seq<Packet>)
    ensures Thinned(tx, tx)
    decreases |tx|
  {
    if tx != [] {
      ThinnedSelf(tx[1..]);
    }
  }

  lemma {:induction false} ThinnedEdit(tx: seq<Packet>, i: nat, body: Body)
    requires i < |tx|
    ensures Thinned(tx[i := tx[i].(body := body)], tx)
    decreases |tx|
  {
    var tx' := tx[i := tx[i].(body := body)];
    if i == 0 {
      assert tx'[1..] == tx[1..];
      ThinnedSelf(tx[1..]);
    } else {
      assert tx'[1..] == tx[1..][i - 1 := tx[1..][i - 1].(body := body)];
      ThinnedEdit(tx[1..], i - 1, body);
    }
  }

  lemma EditOne(q: Queue, i: nat, body: Body)
    requires QInv(q) && i < |q.tx|
    ensures var tx' := q.tx[i := q.tx[i].(body := body)];
            && QInv(q.(tx := tx'))
            && forall other: Port :: other != q.tx[i].port ==> SamePackets(q.tx, tx', other)
  {
    var tx' := q.tx[i := q.tx[i].(body := body)];
    ThinnedEdit(q.tx, i, body);
    ThinningKeeps(q, tx');
    assert forall j :: 0 <= j < |q.tx| && j != i ==> tx'[j] == q.tx[j];
    assert forall x :: x in tx' && x.port != q.tx[i].port ==> exists j :: 0 <= j < |tx'| && tx'[j] == x && j != i;
    assert forall x :: x in q.tx && x.port != q.tx[i].port ==> exists j :: 0 <= j < |tx'| && q.tx[j] == x && j != i;
  }

  // ---------- Duplicates ----------

  /** The interface marked, before its partner announces for it. */
  lemma MarkedKeeps(s: Sys, port: Port)
    requires Inv(s) && Partner(s, port).Some? && s.Of(Partner(s, port).value).ready
    ensures var s1 := if s.Of(port).ready then s.(q := s.q.(tx := Without(s.q.tx, port))).Set(port, DOWN) else s;
            Inv(s1.Set(port, s1.Of(port).(state := Dup)))
  {
    hide QInv, SamePackets, Without, PortInv;
    var other := Partner(s, port).value;
    PartnerOf(s, port, other);
    PortFacts(s, port);
    ClearOthers(s, port);
    NoneRepeat();
    var s1 := if s.Of(port).ready then s.(q := s.q.(tx := Without(s.q.tx, port))).Set(port, DOWN) else s;
    var s2 := s1.Set(port, s1.Of(port).(state := Dup));
    SameRefl(s.q.tx);
    forall p: Port
      ensures PortInv(s2, p)
    {
      if p == port {
        DupIsOk(s2, port, other);
      } else {
        if s.Of(p).state.Dup? {
          PortFacts(s, p);
          var q := Partner(s, p).value;
          PartnerOf(s, p, q);
          assert q != port;
        }
        Frame(s, s2, p);
      }
    }
  }

  lemma DupIsOk(s: Sys, port: Port, other: Port)
    requires s.Wf() && s.Of(port).state.Dup? && PcbOk(s.Of(port).(state := Off), s.named) && !s.Of(port).ready
    requires Partner(s, port) == Some(other) && s.Of(other).ready
    ensures PortInv(s, port)
  {}

  /** Marking an interface as a duplicate: it is silent, and its partner is up and speaks for it. */
  lemma MarkDuplicateKeeps(s: Sys, port: Port, random: nat)
    requires Inv(s)
    ensures Inv(MarkDuplicate(s, port, random))
  {
    hide QInv, SamePackets, Announce, Without, PortInv;
    if Partner(s, port).Some? && s.Of(Partner(s, port).value).ready {
      var other := Partner(s, port).value;
      var s1 := if s.Of(port).ready then s.(q := s.q.(tx := Without(s.q.tx, port))).Set(port, DOWN) else s;
      MarkedKeeps(s, port);
      NoneRepeat();
      AnnounceKeeps(s1.Set(port, s1.Of(port).(state := Dup)), other, [], true, random);
    }
  }
}
