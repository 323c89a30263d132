/** What each operation of the responder does to the packets and to the interface it is for, in terms of records and
 * questions (mdns_pcb.c:43-462; mdns_send.c:1590-1848): what an announcement under way gains, what a
 * probe asks and when it goes out, what follows a packet sent, and what a removal leaves of every packet. */
module ResponderEffects {
  import opened Bytes
  import opened TxQueue
  import opened Responder
  import opened ResponderInv
  import opened ResponderPackets

  // ---------- Packets in the list ----------

  predicate JoinsAt(before: seq<Packet>, after: seq<Packet>, p: Packet, i: nat) {
    && i <= |before| && after == before[..i] + [p] + before[i..]
    && (forall j :: 0 <= j < i ==> before[j].sendAt <= p.sendAt)
    && (i < |before| ==> before[i].sendAt > p.sendAt)
  }

  /** Just one packet comes into the list, behind those that are to be sent no later. */
  ghost predicate Joins(before: seq<Packet>, after: seq<Packet>, p: Packet) {
    exists i: nat :: JoinsAt(before, after, p, i)
  }

  lemma {:induction false} InsertJoins(tx: seq<Packet>, p: Packet)
    ensures Joins(tx, Insert(tx, p), p)
    decreases |tx|
  {
    hide JoinsAt;
    if tx == [] || tx[0].sendAt > p.sendAt {
      JoinsInFront(tx, p);
    } else {
      InsertJoins(tx[1..], p);
      var i: nat :| JoinsAt(tx[1..], Insert(tx[1..], p), p, i);
      JoinsLater(tx, Insert(tx[1..], p), p, i);
    }
  }

  lemma JoinsInFront(tx: seq<Packet>, p: Packet)
    requires tx == [] || tx[0].sendAt > p.sendAt
    ensures JoinsAt(tx, [p] + tx, p, 0)
  {}

  lemma JoinsLater(tx: seq<Packet>, after: seq<Packet>, p: Packet, i: nat)
    requires tx != [] && tx[0].sendAt <= p.sendAt && JoinsAt(tx[1..], after, p, i)
    ensures JoinsAt(tx, [tx[0]] + after, p, i + 1)
  {
    var rest := tx[1..];
    assert [tx[0]] + rest[..i] == tx[..i + 1] && tx[i + 1..] == rest[i..];
    assert forall j :: 0 < j < i + 1 ==> tx[j] == rest[j - 1];
  }

  /** The packets of the other interfaces, in their order. */
  function Others(tx: seq<Packet>, port: Port): seq<Packet> {
    if tx == [] then [] else (if tx[0].port == port then [] else [tx[0]]) + Others(tx[1..], port)
  }

  lemma {:induction false} WithoutIs(tx: seq<Packet>, port: Port)
    ensures Without(tx, port) == Others(tx, port)
    decreases |tx|
  {
    if tx != [] {
      WithoutIs(tx[1..], port);
      assert [] + Others(tx[1..], port) == Others(tx[1..], port);
    }
  }

  /** Only this interface changes, and the packets. */
  ghost predicate OnlyPort(s: Sys, t: Sys, port: Port) {
    && s.Wf() && t.Wf()
    && t == s.(q := s.q.(tx := t.q.tx, nextId := t.q.nextId), pcbs := t.pcbs, overran := t.overran)
    && forall p: Port :: p != port ==> t.Of(p) == s.Of(p)
  }

  // ---------- Probing ----------

  /** The records and questions of a probe for services, and for addresses. */
  ghost predicate Asks(body: Body, services: seq<Svc>, ip: bool) {
    && (forall q :: q in body.questions <==>
          (exists v :: v in services && q == ServiceQ(v))
          || (ip && (q == HostQ(None) || exists v :: v in services && q == HostQ(Some(v)))))
    && (forall x :: x in body.servers <==>
          (exists v :: v in services && x == Answer(Srv, Some(v), None)) || (ip && Addresses(x, services)))
    && body.answers == [] && body.additional == [] && !body.distributed
    && NoRepeats(body.questions) && NoRepeats(body.servers)
  }

  /** The interface is taken to be probing until its announcements begin. */
  predicate StillProbes(state: PState) {
    state in [Dup, Init, Probe1, Probe2, Probe3]
  }

  /** Probing begins anew: the services given, and those that were being probed, are on the list, each once; all other
   * packets of the interface are gone, and a new one asks for just that list, after 120 to 247 ms, or 1000 to 1127 ms
   * when more than five probes have failed.  Without a host name the interface just runs. */
  lemma ProbeBegins(s: Sys, port: Port, services: seq<Svc>, ip: bool, random: nat)
    requires s.Wf() && NoRepeats(services) && NoRepeats(s.Of(port).services)
    ensures var t := InitProbe(s, port, services, ip, random); var was, now := s.Of(port), t.Of(port);
            && OnlyPort(s, t, port)
            && if !s.named then now == was.(state := Running) && t.q.tx == Others(s.q.tx, port)
               else
                 && now == Pcb(Probe1, now.services, was.probeIp || ip, true, was.failed, was.ready)
                 && NoRepeats(now.services)
                 && (forall v :: v in now.services <==>
                       v in services || (StillProbes(was.state) && v in was.services))
                 && exists body ::
                      && Asks(body, now.services, now.probeIp)
                      && Joins(Others(s.q.tx, port), t.q.tx,
                               Packet(s.q.nextId,
                                      s.q.now + (if was.failed > 5 then 1000 else 120) + random % 128,
                                      false, port, body))
  {
    hide Without, Others, NoRepeats, StartProbe, Asks, Joins;
    WithoutIs(s.q.tx, port);
    var was := s.Of(port);
    if s.named {
      var cleared := s.(q := s.q.(tx := Without(s.q.tx, port)));
      var added := if was.state.IsProbing() then NewOnes(services, was.services) else services;
      NewOnesAre(services, was.services);
      ProbeStarted(cleared, port, added, ip, random);
    }
  }

  lemma ProbeStarted(s: Sys, port: Port, services: seq<Svc>, ip: bool, random: nat)
    requires s.Wf() && NoRepeats(services) && NoRepeats(s.Of(port).services)
    requires s.Of(port).state.IsProbing() ==> forall v :: v in services ==> v !in s.Of(port).services
    ensures var t := StartProbe(s, port, services, ip, random); var was, now := s.Of(port), t.Of(port);
            && OnlyPort(s, t, port)
            && now == Pcb(Probe1, now.services, was.probeIp || ip, true, was.failed, was.ready)
            && NoRepeats(now.services)
            && (forall v :: v in now.services <==> v in services || (StillProbes(was.state) && v in was.services))
            && exists body ::
                 && Asks(body, now.services, now.probeIp)
                 && Joins(s.q.tx, t.q.tx,
                          Packet(s.q.nextId, s.q.now + (if was.failed > 5 then 1000 else 120) + random % 128, false,
                            port,
                                 body))
  {
    hide NoRepeats, ProbeBody, Insert, Asks, Joins;
    MergedServices(s, port, services, ip, random);
    var was, t := s.Of(port), StartProbe(s, port, services, ip, random);
    var now := t.Of(port);
    var body := ProbeBody(now.services, now.probeIp);
    var at := s.q.now + (if was.failed > 5 then 1000 else 120) + random % 128;
    ProbeBodyAsks(now.services, now.probeIp);
    InsertJoins(s.q.tx, Packet(s.q.nextId, at, false, port, body));
    assert t.q.tx == Insert(s.q.tx, Packet(s.q.nextId, at, false, port, body));
  }

  lemma ProbeBodyAsks(services: seq<Svc>, ip: bool)
    ensures Asks(ProbeBody(services, ip), services, ip)
  {
    hide ServiceQuestions, SrvAnswers, HostQuestions, AddHosts, AddHost, AddQuestion, NoRepeats, Locates;
    ProbeAsks(services, ip);
  }

  // ---------- Announcing ----------

  /** The first packet of the interface. */
  predicate FirstFor(tx: seq<Packet>, port: Port, i: nat) {
    i < |tx| && tx[i].port == port && forall j :: 0 <= j < i ==> tx[j].port != port
  }

  predicate LosesAt(before: seq<Answer>, after: seq<Answer>, kind: RecordType, service: Option<Svc>, i: nat) {
    && i < |before| && before[i].kind == kind && before[i].service == service
    && (forall j :: 0 <= j < i ==> !(before[j].kind == kind && before[j].service == service))
    && after == before[..i] + before[i + 1..]
  }

  /** The first record of that type and service is gone, if there was one. */
  ghost predicate LosesFirst(before: seq<Answer>, after: seq<Answer>, kind: RecordType, service: Option<Svc>) {
    || (after == before && forall a :: a in before ==> !(a.kind == kind && a.service == service))
    || (exists i: nat :: LosesAt(before, after, kind, service, i))
  }

  lemma {:induction false} DropFirstLoses(answers: seq<Answer>, kind: RecordType, service: Option<Svc>)
    ensures LosesFirst(answers, DropFirst(answers, kind, service), kind, service)
    decreases |answers|
  {
    hide LosesAt;
    if answers != [] {
      if answers[0].kind == kind && answers[0].service == service {
        LosesHead(answers, kind, service);
      } else {
        var rest := answers[1..];
        DropFirstLoses(rest, kind, service);
        assert answers == [answers[0]] + rest;
        if i: nat :| LosesAt(rest, DropFirst(rest, kind, service), kind, service, i) {
          LosesLater(answers, DropFirst(rest, kind, service), kind, service, i);
        }
      }
    }
  }

  lemma LosesHead(answers: seq<Answer>, kind: RecordType, service: Option<Svc>)
    requires answers != [] && answers[0].kind == kind && answers[0].service == service
    ensures LosesAt(answers, answers[1..], kind, service, 0)
  {}

  lemma LosesLater(answers: seq<Answer>, after: seq<Answer>, kind: RecordType, service: Option<Svc>, i: nat)
    requires answers != [] && !(answers[0].kind == kind && answers[0].service == service)
    requires LosesAt(answers[1..], after, kind, service, i)
    ensures LosesAt(answers, [answers[0]] + after, kind, service, i + 1)
  {
    var rest := answers[1..];
    assert answers[i + 1] == rest[i] && forall j :: 0 < j < i + 1 ==> answers[j] == rest[j - 1];
    assert [answers[0]] + (rest[..i] + rest[i + 1..]) == answers[..i + 1] + answers[i + 2..];
  }

  /** The records an announcement gains: the four of every service, and, when addresses are announced, those of the
   * hosts of the services, or of this device. */
  ghost predicate IsGained(x: Answer, services: seq<Svc>, ip: bool) {
    (exists v :: v in services && Announces(x, v)) || (ip && Addresses(x, services))
  }

  /** A packet after more is announced with it. */
  ghost predicate Gains(before: Body, after: Body, services: seq<Svc>, ip: bool) {
    && after == before.(answers := after.answers, additional := after.additional)
    && before.answers <= after.answers
    && (forall x :: x in after.answers <==> x in before.answers || IsGained(x, services, ip))
    && (NoRepeats(before.answers) ==> NoRepeats(after.answers))
    && (if ip then exists less ::
                     LosesFirst(before.additional, less, A, None) && LosesFirst(less, after.additional, Aaaa, None)
        else after.additional == before.additional)
  }

  lemma {:induction false} ServicesBehind(answers: seq<Answer>, services: seq<Svc>)
    ensures answers <= AddServices(answers, services)
    decreases |services|
  {
    if services != [] {
      ServicesBehind(AddService(answers, services[0]), services[1..]);
    }
  }

  lemma {:induction false} HostsBehind(answers: seq<Answer>, services: seq<Svc>)
    ensures answers <= AddHosts(answers, services)
    decreases |services|
  {
    if services != [] {
      HostsBehind(AddHost(answers, services[0].host), services[1..]);
    }
  }

  lemma ExtendGains(body: Body, services: seq<Svc>, ip: bool)
    ensures Gains(body, Extend(body, services, ip), services, ip)
  {
    hide AddServices, AddHosts, AddHost, Announces, Locates, DropFirst, NoRepeats, LosesFirst;
    var more := AddServices(body.answers, services);
    AddedServices(body.answers, services);
    ServicesBehind(body.answers, services);
    AddedHosts(more, services);
    HostsBehind(more, services);
    AddedHost(more, 0);
    OneHostBehind(more);
    DropFirstLoses(body.additional, A, None);
    DropFirstLoses(DropFirst(body.additional, A, None), Aaaa, None);
  }

  lemma OneHostBehind(answers: seq<Answer>)
    ensures answers <= AddHost(answers, 0)
  {}

  /** Announcing more while an announcement is under way: the first packet of the interface keeps its records, in
   * front, and gains those of every service given, and their addresses, each once and nothing else; the announcing
   * begins again; no other packet changes.  With no packet in the list nothing happens. */
  lemma AnnouncementGrows(s: Sys, port: Port, services: seq<Svc>, ip: bool, random: nat)
    requires s.Wf() && s.Of(port).ready && s.Of(port).state in [Ann1, Ann2, Ann3]
    ensures var t := Announce(s, port, services, ip, random);
            && OnlyPort(s, t, port) && t.q.nextId == s.q.nextId
            && ((forall x :: x in s.q.tx ==> x.port != port) ==> t == s)
            && forall i: nat :: FirstFor(s.q.tx, port, i) ==>
                 && t.Of(port) == s.Of(port).(state := Ann1)
                 && |t.q.tx| == |s.q.tx|
                 && t.q.tx == s.q.tx[i := s.q.tx[i].(body := t.q.tx[i].body)]
                 && Gains(s.q.tx[i].body, t.q.tx[i].body, services, ip)
  {
    hide Extend, FirstOf, Gains;
    var k := FirstOf(s.q.tx, port);
    forall i: nat | FirstFor(s.q.tx, port, i)
      ensures i == k && i < |s.q.tx|
    {}
    if k < |s.q.tx| {
      assert s.q.tx[k] in s.q.tx;
      ExtendGains(s.q.tx[k].body, services, ip);
    } else {
      assert forall x :: x in s.q.tx ==> x.port != port;
    }
  }

  /** The records of an announcement: those of the services, and their addresses in the section of servers. */
  ghost predicate Tells(body: Body, services: seq<Svc>, ip: bool) {
    && (forall x :: x in body.answers <==> exists v :: v in services && Announces(x, v))
    && (forall x :: x in body.servers <==> ip && Addresses(x, services))
    && body.questions == [] && body.additional == [] && !body.distributed
    && NoRepeats(body.answers) && NoRepeats(body.servers)
  }

  /** Announcing when nothing is under way: on an interface that runs, with a host name, a new packet tells of just the
   * services given, at once; on one that probes, probing begins anew; on others nothing happens. */
  lemma AnnouncementBegins(s: Sys, port: Port, services: seq<Svc>, ip: bool, random: nat)
    requires s.Wf() && !(s.Of(port).ready && s.Of(port).state in [Ann1, Ann2, Ann3])
    ensures var t := Announce(s, port, services, ip, random); var was := s.Of(port);
            if was.ready && was.state == Running && s.named then
              && OnlyPort(s, t, port) && t.Of(port) == was.(state := Ann1) && t.q.nextId == s.q.nextId + 1
              && exists body :: Tells(body, services, ip)
                                && Joins(s.q.tx, t.q.tx, Packet(s.q.nextId, s.q.now, false, port, body))
            else if was.ready && StillProbes(was.state) then t == InitProbe(s, port, services, ip, random)
            else t == s
  {
    hide InitProbe, AnnounceBody, Insert, Tells, Joins, Extend, FirstOf;
    var body := AnnounceBody(services, ip);
    AnnounceBodyTells(services, ip);
    InsertJoins(s.q.tx, Packet(s.q.nextId, s.q.now + 0, false, port, body));
  }

  lemma AnnounceBodyTells(services: seq<Svc>, ip: bool)
    ensures Tells(AnnounceBody(services, ip), services, ip)
  {
    hide AddServices, AddHosts, AddHost, Announces, Locates, NoRepeats;
    AnnouncementTells(services, ip);
  }

  // ---------- What follows a packet sent ----------

  /** What the announcement made of a probe holds: what its server records yield, each once. */
  ghost predicate FollowsFrom(probe: Body, body: Body) {
    && (forall x :: x in body.answers <==> exists y :: y in probe.servers && Yields(y, x))
    && NoRepeats(body.answers)
    && body.questions == [] && body.servers == [] && body.additional == [] && !body.distributed
  }

  lemma ProbeIsFollowed(probe: Body)
    ensures FollowsFrom(probe, AnnounceFromProbe(probe))
  {
    hide AnnounceAnswers, Yields;
    AnnounceAnswersAre([], probe.servers);
  }

  /** The packet sent: the first two probes and the first two announcements go out again as they were, 250 ms and 1000
   * ms later; the third probe is followed by a new packet with what it claimed, 250 ms later; the third announcement
   * by nothing.  Each takes the interface to its next state and is logged with the state it was sent in. */
  lemma SentTells(s: Sys, p: Packet)
    requires s.Wf() && s.Of(p.port).state in [Probe1, Probe2, Probe3, Ann1, Ann2, Ann3]
    ensures var t := Handle(s, p); var was := s.Of(p.port);
            && t.log == s.log + [Sent(p.port, was.state, s.q.now, p.id)]
            && OnlyPort(s, t.(log := s.log), p.port)
            && (was.state in [Probe1, Probe2] ==>
                  && t.Of(p.port) == was.(state := if was.state == Probe1 then Probe2 else Probe3)
                  && Joins(s.q.tx, t.q.tx, Packet(p.id, s.q.now + 250, false, p.port, p.body)))
            && (was.state == Probe3 ==>
                  && t.Of(p.port) == Pcb(Ann1, [], false, false, 0, was.ready)
                  && exists body :: FollowsFrom(p.body, body)
                       && Joins(s.q.tx, t.q.tx, Packet(s.q.nextId, s.q.now + 250, false, p.port, body)))
            && (was.state in [Ann1, Ann2] ==>
                  && t.Of(p.port) == was.(state := if was.state == Ann1 then Ann2 else Ann3)
                  && Joins(s.q.tx, t.q.tx, Packet(p.id, s.q.now + 1000, false, p.port, p.body)))
            && (was.state == Ann3 ==> t.Of(p.port) == was.(state := Running) && t.q == s.q)
  {
    hide Insert, Joins, AnnounceFromProbe, FollowsFrom;
    var state := s.Of(p.port).state;
    if state == Probe3 {
      ProbeIsFollowed(p.body);
      InsertJoins(s.q.tx, Packet(s.q.nextId, s.q.now + 250, false, p.port, AnnounceFromProbe(p.body)));
    } else if state != Ann3 {
      InsertJoins(s.q.tx, Packet(p.id, s.q.now + 250, false, p.port, p.body));
      InsertJoins(s.q.tx, Packet(p.id, s.q.now + 1000, false, p.port, p.body));
    }
  }

  /** A packet of an interface that only runs, such as a response, is logged and leads to nothing; one of an interface
   * that is off is dropped. */
  lemma SentAndDone(s: Sys, p: Packet)
    requires s.Wf() && s.Of(p.port).state in [Off, Dup, Init, Running]
    ensures Handle(s, p) ==
            if s.Of(p.port).state == Off then s
            else s.(log := s.log + [Sent(p.port, s.Of(p.port).state, s.q.now, p.id)])
  {}

  // ---------- Up and down ----------

  /** Turning an interface on: with its network side up, or coming up, it is up, and asks for every service of the
   * device, for what it was probing, and for addresses; else only its count of failures is cleared. */
  lemma EnabledTells(s: Sys, port: Port, up: bool, random: nat)
    requires s.Wf() && NoRepeats(s.services) && NoRepeats(s.Of(port).services)
    ensures var t := Enable(s, port, up, random); var was, now := s.Of(port), t.Of(port);
            if !was.ready && !up then t == s.Set(port, was.(failed := 0))
            else
              && OnlyPort(s, t, port)
              && if !s.named then now == was.(state := Running, ready := true) && t.q.tx == Others(s.q.tx, port)
                 else
                   && now == Pcb(Probe1, now.services, true, true, was.failed, true)
                   && NoRepeats(now.services)
                   && (forall v :: v in now.services <==>
                         v in s.services || (StillProbes(was.state) && v in was.services))
                   && exists body ::
                        && Asks(body, now.services, true)
                        && Joins(Others(s.q.tx, port), t.q.tx,
                                 Packet(s.q.nextId,
                                        s.q.now + (if was.failed > 5 then 1000 else 120) + random % 128,
                                        false, port, body))
  {
    hide InitProbe, Asks, Joins, Others, NoRepeats;
    var was := s.Of(port);
    var on := s.Set(port, was.(ready := true));
    ProbeBegins(on, port, s.services, true, random);
  }

  /** The interface is as it was at first, but for its state. */
  predicate Reset(pcb: Pcb, state: PState) {
    pcb == Pcb(state, [], false, false, 0, false)
  }

  /** Turning an interface off: if its network side was up, all its packets go, and its partner, if it was silent as a
   * duplicate, is turned on; else only its state changes. */
  lemma DisabledTells(s: Sys, port: Port, up: bool, random: nat)
    requires s.Wf()
    ensures var t := Disable(s, port, up, random); var was := s.Of(port);
            && t.Wf() && t.Of(port).state == Off
            && (!was.ready ==> t == s.Set(port, was.(state := Off)))
            && (was.ready ==>
                  var down := s.Set(port, Pcb(Off, [], false, false, 0, false)).(q := s.q.(tx := Others(s.q.tx, port)));
                  && Reset(t.Of(port), Off)
                  && if port.ifx in s.partner && s.Of(Port(s.partner[port.ifx], port.v6)).state == Dup
                     then
                       var other := Port(s.partner[port.ifx], port.v6);
                       t == Enable(down.Set(other, down.Of(other).(state := Off)), other, up, random)
                     else t == down)
  {
    hide Without, Others, Enable;
    WithoutIs(s.q.tx, port);
    var was := s.Of(port);
    var down := s.Set(port, Pcb(Off, [], false, false, 0, false)).(q := s.q.(tx := Others(s.q.tx, port)));
    if was.ready {
      assert s.(q := s.q.(tx := Without(s.q.tx, port))).Set(port, DOWN) == down;
      if port.ifx in s.partner {
        var other := Port(s.partner[port.ifx], port.v6);
        assert other != port;
        var e := Enable(down.Set(other, down.Of(other).(state := Off)), other, up, random);
        EnableLeaves(down.Set(other, down.Of(other).(state := Off)), other, up, random, port);
        assert e.Set(port, e.Of(port).(state := Off)).pcbs == e.pcbs;
      }
      assert down.Set(port, down.Of(port).(state := Off)).pcbs == down.pcbs;
    }
  }

  lemma EnableLeaves(s: Sys, other: Port, up: bool, random: nat, port: Port)
    requires s.Wf() && port != other
    ensures Enable(s, other, up, random).Of(port) == s.Of(port)
  {}

  /** A duplicate: with its partner up, the interface falls silent and loses all its packets, and the partner announces
   * the addresses of this device, in all that AnnouncementGrows and AnnouncementBegins say; else nothing happens. */
  lemma DuplicateTells(s: Sys, port: Port, random: nat)
    requires s.Wf()
    ensures var t := MarkDuplicate(s, port, random); var was := s.Of(port);
            if port.ifx in s.partner && s.Of(Port(s.partner[port.ifx], port.v6)).ready then
              var other := Port(s.partner[port.ifx], port.v6);
              && other != port
              && var silent := if was.ready
                               then s.Set(port, Pcb(Dup, [], false, false, 0, false))
                                     .(q := s.q.(tx := Others(s.q.tx, port)))
                               else s.Set(port, was.(state := Dup));
                 t == Announce(silent, other, [], true, random)
            else t == s
  {
    hide Without, Others, Announce;
    WithoutIs(s.q.tx, port);
    if port.ifx in s.partner {
      var down := s.(q := s.q.(tx := Without(s.q.tx, port))).Set(port, DOWN);
      assert down.Set(port, down.Of(port).(state := Dup)).pcbs
             == s.Set(port, Pcb(Dup, [], false, false, 0, false)).pcbs;
    }
  }

  // ---------- Removing a service ----------

  /** What is left of the records when a service is removed, in order. */
  function LeftOf(answers: seq<Answer>, svc: Svc): seq<Answer> {
    if answers == [] then []
    else (if answers[0].service == Some(svc) then [] else [answers[0]]) + LeftOf(answers[1..], svc)
  }

  lemma {:induction false} DropServiceLeaves(answers: seq<Answer>, svc: Svc)
    ensures DropService(answers, svc) == LeftOf(answers, svc)
    decreases |answers|
  {
    if answers != [] {
      DropServiceLeaves(answers[1..], svc);
      assert [] + LeftOf(answers[1..], svc) == LeftOf(answers[1..], svc);
    }
  }

  /** The first question for a service of that type is gone, if there was one. */
  predicate QuestionGoes(before: seq<Question>, after: seq<Question>, svc: Svc, i: nat) {
    && i < |before| && before[i].ServiceQ? && before[i].service.key == svc.key
    && (forall j :: 0 <= j < i ==> !(before[j].ServiceQ? && before[j].service.key == svc.key))
    && after == before[..i] + before[i + 1..]
  }

  ghost predicate LosesQuestion(before: seq<Question>, after: seq<Question>, svc: Svc) {
    || (after == before && forall q :: q in before ==> !(q.ServiceQ? && q.service.key == svc.key))
    || (exists i: nat :: QuestionGoes(before, after, svc, i))
  }

  lemma {:induction false} DropQuestionLoses(questions: seq<Question>, svc: Svc)
    ensures LosesQuestion(questions, DropQuestion(questions, svc), svc)
    decreases |questions|
  {
    hide QuestionGoes;
    if questions != [] {
      if questions[0].ServiceQ? && questions[0].service.key == svc.key {
        FirstGoes(questions, svc);
      } else {
        var rest := questions[1..];
        DropQuestionLoses(rest, svc);
        assert questions == [questions[0]] + rest;
        if i: nat :| QuestionGoes(rest, DropQuestion(rest, svc), svc, i) {
          LaterGoes(questions, DropQuestion(rest, svc), svc, i);
        }
      }
    }
  }

  lemma FirstGoes(questions: seq<Question>, svc: Svc)
    requires questions != [] && questions[0].ServiceQ? && questions[0].service.key == svc.key
    ensures QuestionGoes(questions, questions[1..], svc, 0)
  {}

  lemma LaterGoes(questions: seq<Question>, after: seq<Question>, svc: Svc, i: nat)
    requires questions != [] && !(questions[0].ServiceQ? && questions[0].service.key == svc.key)
    requires QuestionGoes(questions[1..], after, svc, i)
    ensures QuestionGoes(questions, [questions[0]] + after, svc, i + 1)
  {
    var rest := questions[1..];
    assert questions[i + 1] == rest[i] && forall j :: 0 < j < i + 1 ==> questions[j] == rest[j - 1];
    assert [questions[0]] + (rest[..i] + rest[i + 1..]) == questions[..i + 1] + questions[i + 2..];
  }

  /** A body without the records of a service, and without a question for its type when the interface was probing it. */
  ghost predicate Stripped(before: Body, after: Body, svc: Svc, asked: bool) {
    && after.answers == LeftOf(before.answers, svc)
    && after.servers == LeftOf(before.servers, svc)
    && after.additional == LeftOf(before.additional, svc)
    && after.distributed == before.distributed
    && if asked then LosesQuestion(before.questions, after.questions, svc) else after.questions == before.questions
  }

  /** The interface probes, or is taken to, and the service is among those probed. */
  predicate ProbesFor(pcb: Pcb, svc: Svc) {
    pcb.ready && StillProbes(pcb.state) && svc in pcb.services
  }

  /** What becomes of the interface of a packet.  Probing goes on without the service, or ends, if nothing else is
   * probed; announcing ends if the removal took the last answer from the packet. */
  predicate StandsAfter(pcb: Pcb, before: Body, after: Body, svc: Svc, now: Pcb) {
    if ProbesFor(pcb, svc) then
      if |pcb.services| > 1 then now == pcb.(services := now.services)
      else if pcb.probeIp then now == pcb.(services := [])
      else now == pcb.(services := [], probeRunning := false, state := Running)
    else if pcb.ready && pcb.state in [Ann1, Ann2, Ann3] && before.answers != [] && after.answers == []
    then now == pcb.(state := Running)
    else now == pcb
  }

  /** One packet of a removal. */
  lemma StripTells(pcb: Pcb, body: Body, svc: Svc)
    ensures var (now, after) := Strip(pcb, body, svc);
            Stripped(body, after, svc, ProbesFor(pcb, svc)) && StandsAfter(pcb, body, after, svc, now)
    ensures var (now, _) := Strip(pcb, body, svc);
            ProbesFor(pcb, svc) && |pcb.services| > 1 && NoRepeats(pcb.services) ==>
              NoRepeats(now.services) && forall v :: v in now.services <==> v in pcb.services && v != svc
  {
    hide DropService, DropQuestion, LosesQuestion, LeftOf, DropOne, NoRepeats;
    DropServiceLeaves(body.answers, svc);
    DropServiceLeaves(body.servers, svc);
    DropServiceLeaves(body.additional, svc);
    DropQuestionLoses(body.questions, svc);
    if NoRepeats(pcb.services) {
      OneDropped(pcb.services, svc);
    }
  }

  lemma {:induction false} OneDropped(services: seq<Svc>, svc: Svc)
    requires NoRepeats(services)
    ensures NoRepeats(DropOne(services, svc))
    ensures forall x :: x in DropOne(services, svc) <==> x in services && x != svc
    decreases |services|
  {
    if services != [] {
      var rest := services[1..];
      assert services == [services[0]] + rest && services[0] !in rest;
      OneDropped(rest, svc);
      var r := DropOne(rest, svc);
      if services[0] != svc {
        assert forall i :: 0 <= i < |r| ==> r[i] in r;
      }
    }
  }

  /** Every packet in turn: without the service, and gone if nothing is left in it.  `pcbs` are the interfaces before
   * it. */
  ghost predicate AllStripped(tx: seq<Packet>, after: seq<Packet>, svc: Svc)
    decreases |tx|
  {
    if tx == [] then after == []
    else
      exists body, asked: bool :: Stripped(tx[0].body, body, svc, asked)
        && if body.questions == [] && body.answers == [] && body.servers == [] && body.additional == []
           then AllStripped(tx[1..], after, svc)
           else after != [] && after[0] == tx[0].(body := body) && AllStripped(tx[1..], after[1..], svc)
  }

  lemma {:induction false} StripAllTells(tx: seq<Packet>, pcbs: map<Port, Pcb>, svc: Svc)
    requires forall p: Port :: p in pcbs
    ensures AllStripped(tx, StripAll(tx, pcbs, svc).0, svc)
    decreases |tx|
  {
    hide Strip, Stripped;
    if tx != [] {
      var (pcb, body) := Strip(pcbs[tx[0].port], tx[0].body, svc);
      StripTells(pcbs[tx[0].port], tx[0].body, svc);
      var asked := ProbesFor(pcbs[tx[0].port], svc);
      assert Stripped(tx[0].body, body, svc, asked);
      StripAllTells(tx[1..], pcbs[tx[0].port := pcb], svc);
      var rest := StripAll(tx[1..], pcbs[tx[0].port := pcb], svc).0;
      if !Empty(body) {
        var after := [tx[0].(body := body)] + rest;
        assert after[1..] == rest;
      }
    }
  }

  /** After a removal no packet speaks of the service any more; of each the other records stay, in order, and it goes
   * if nothing is left; and the device has the service no longer. */
  lemma RemovedTells(s: Sys, svc: Svc)
    requires s.Wf() && NoRepeats(s.services)
    ensures var t := RemoveService(s, svc);
            && AllStripped(s.q.tx, t.q.tx, svc)
            && t == s.(q := s.q.(tx := t.q.tx), pcbs := t.pcbs, services := t.services)
            && NoRepeats(t.services) && (forall v :: v in t.services <==> v in s.services && v != svc)
    ensures forall x, a: Answer ::
              x in RemoveService(s, svc).q.tx && a in x.body.answers + x.body.servers + x.body.additional ==>
                a.service != Some(svc)
  {
    hide StripAll, NoRepeats, AllStripped;
    StripAllTells(s.q.tx, s.pcbs, svc);
    OneDropped(s.services, svc);
    NoneSpeaks(s.q.tx, RemoveService(s, svc).q.tx, svc);
  }

  lemma {:induction false} LeftSays(answers: seq<Answer>, svc: Svc)
    ensures forall a :: a in LeftOf(answers, svc) <==> a in answers && a.service != Some(svc)
    decreases |answers|
  {
    if answers != [] {
      LeftSays(answers[1..], svc);
      assert answers == [answers[0]] + answers[1..];
    }
  }

  lemma {:induction false} NoneSpeaks(tx: seq<Packet>, after: seq<Packet>, svc: Svc)
    requires AllStripped(tx, after, svc)
    ensures forall x, a: Answer ::
              x in after && a in x.body.answers + x.body.servers + x.body.additional ==> a.service != Some(svc)
    decreases |tx|
  {
    hide LeftOf, LosesQuestion;
    if tx != [] {
      var body, asked: bool :| Stripped(tx[0].body, body, svc, asked)
        && if body.questions == [] && body.answers == [] && body.servers == [] && body.additional == []
           then AllStripped(tx[1..], after, svc)
           else after != [] && after[0] == tx[0].(body := body) && AllStripped(tx[1..], after[1..], svc);
      LeftSays(tx[0].body.answers, svc);
      LeftSays(tx[0].body.servers, svc);
      LeftSays(tx[0].body.additional, svc);
      if body.questions == [] && body.answers == [] && body.servers == [] && body.additional == [] {
        NoneSpeaks(tx[1..], after, svc);
      } else {
        NoneSpeaks(tx[1..], after[1..], svc);
        assert forall x :: x in after ==> x == after[0] || x in after[1..];
      }
    }
  }

  // ---------- Known answers ----------

  /** A known answer leaves the first such record of every response of the interface that answers several hosts, and
   * changes no other packet. */
  lemma {:induction false} KnownLeaves(tx: seq<Packet>, port: Port, kind: RecordType, service: Option<Svc>)
    ensures var after := RemoveKnown(tx, port, kind, service);
            |after| == |tx| && forall i :: 0 <= i < |tx| ==>
              && after[i] == tx[i].(body := tx[i].body.(answers := after[i].body.answers))
              && if tx[i].port == port && tx[i].body.distributed
                 then LosesFirst(tx[i].body.answers, after[i].body.answers, kind, service)
                 else after[i] == tx[i]
    decreases |tx|
  {
    hide DropFirst, LosesFirst;
    if tx != [] {
      KnownLeaves(tx[1..], port, kind, service);
      DropFirstLoses(tx[0].body.answers, kind, service);
      var after := RemoveKnown(tx, port, kind, service);
      assert forall i :: 0 < i < |tx| ==> after[i] == after[1..][i - 1] && tx[i] == tx[1..][i - 1];
    }
  }

  // ---------- All interfaces ----------

  /** An interface that is probed with the others: what was being probed is kept unless the lists are cleared. */
  ghost predicate ProbedNow(was: Pcb, now: Pcb, services: seq<Svc>, ip: bool, clear: bool) {
    && now == Pcb(Probe1, now.services, was.probeIp || ip, true, was.failed, true)
    && NoRepeats(now.services)
    && forall v :: v in now.services <==> v in services || (!clear && StillProbes(was.state) && v in was.services)
  }

  lemma ProbedOne(s: Sys, port: Port, services: seq<Svc>, ip: bool, clear: bool, random: nat)
    requires s.Wf() && s.named && NoRepeats(services) && NoRepeats(s.Of(port).services)
    ensures var t := ProbeOne(s, port, services, ip, clear, random);
            && t.Wf() && t.named && t.services == s.services && t.log == s.log && t.partner == s.partner
            && (forall p: Port :: p != port ==> t.Of(p) == s.Of(p))
            && if s.Of(port).ready then ProbedNow(s.Of(port), t.Of(port), services, ip, clear) else t == s
  {
    hide InitProbe, NoRepeats, Joins, Asks, Others;
    var was := s.Of(port);
    var s1 := if clear then s.Set(port, was.(services := [], probeRunning := false)) else s;
    NoneRepeat();
    ProbeBegins(s1, port, services, ip, random);
  }

  lemma {:induction false} ProbedAll(s: Sys, ports: seq<Port>, services: seq<Svc>, ip: bool, clear: bool,
                                     random: Port -> nat)
    requires s.Wf() && s.named && NoRepeats(services) && (forall p: Port :: NoRepeats(s.Of(p).services))
    requires NoRepeats(ports)
    ensures var t := ProbeAll(s, ports, services, ip, clear, random);
            && t.Wf() && t.named && t.services == s.services && t.log == s.log && t.partner == s.partner
            && forall p: Port ::
                 if p in ports && s.Of(p).ready then ProbedNow(s.Of(p), t.Of(p), services, ip, clear)
                 else t.Of(p) == s.Of(p)
    decreases |ports|
  {
    hide ProbeOne, NoRepeats;
    if ports != [] {
      var port, rest := ports[0], ports[1..];
      FirstApart(ports);
      var s1 := ProbeOne(s, port, services, ip, clear, random(port));
      ProbedOne(s, port, services, ip, clear, random(port));
      ProbedAll(s1, rest, services, ip, clear, random);
    }
  }

  lemma FirstApart(ports: seq<Port>)
    requires ports != [] && NoRepeats(ports)
    ensures ports == [ports[0]] + ports[1..] && ports[0] !in ports[1..] && NoRepeats(ports[1..])
  {}

  lemma EveryPort(port: Port)
    ensures port in ALL_PORTS && NoRepeats(ALL_PORTS)
  {}

  /** A new host name: every interface that is up probes for just the services of the device and for addresses, and the
   * interfaces that are down stay as they are. */
  lemma RestartTells(s: Sys, random: Port -> nat)
    requires s.Wf() && s.named && NoRepeats(s.services) && forall p: Port :: NoRepeats(s.Of(p).services)
    ensures var t := RestartAll(s, random);
            && t.Wf() && forall p: Port ::
                 if s.Of(p).ready then
                   && t.Of(p) == Pcb(Probe1, t.Of(p).services, true, true, s.Of(p).failed, true)
                   && NoRepeats(t.Of(p).services) && (forall v :: v in t.Of(p).services <==> v in s.services)
                 else t.Of(p) == s.Of(p)
  {
    hide ProbeAll, NoRepeats;
    EveryPort(Port(0, false));
    var s0 := s.(q := s.q.(tx := []));
    assert forall p: Port :: s0.Of(p) == s.Of(p);
    ProbedAll(s0, ALL_PORTS, s.services, true, true, random);
    forall p: Port
      ensures p in ALL_PORTS
    {
      EveryPort(p);
    }
  }

  /** Probing for services on all interfaces. */
  lemma ProbeAllTells(s: Sys, services: seq<Svc>, ip: bool, clear: bool, random: Port -> nat)
    requires s.Wf() && s.named && NoRepeats(services) && forall p: Port :: NoRepeats(s.Of(p).services)
    ensures var t := ProbeAll(s, ALL_PORTS, services, ip, clear, random);
            && t.Wf() && forall p: Port ::
                 if s.Of(p).ready then ProbedNow(s.Of(p), t.Of(p), services, ip, clear) else t.Of(p) == s.Of(p)
  {
    hide ProbeAll, NoRepeats;
    EveryPort(Port(0, false));
    ProbedAll(s, ALL_PORTS, services, ip, clear, random);
    forall p: Port
      ensures p in ALL_PORTS
    {
      EveryPort(p);
    }
  }

  /** Announcing on all interfaces, in a state of the responder that is in order and has a host name: on every one that
   * is up, probing begins anew if it probes, and announcing begins otherwise. */
  lemma {:induction false} AnnounceAllTells(s: Sys, ports: seq<Port>, services: seq<Svc>, ip: bool, random: Port -> nat)
    requires Inv(s) && s.named && NoRepeats(services) && (services != [] || ip) && NoRepeats(ports)
    ensures var t := AnnounceAll(s, ports, services, ip, random);
            && t.Wf() && forall p: Port ::
                 if p in ports && s.Of(p).ready
                 then t.Of(p).ready && t.Of(p).state == if StillProbes(s.Of(p).state) then Probe1 else Ann1
                 else t.Of(p) == s.Of(p)
    decreases |ports|
  {
    hide Inv, Announce, NoRepeats;
    WellFormed(s);
    if ports != [] {
      var port, rest := ports[0], ports[1..];
      FirstApart(ports);
      var s1 := Announce(s, port, services, ip, random(port));
      AnnounceKeeps(s, port, services, ip, random(port));
      AnnouncedOne(s, port, services, ip, random(port));
      AnnounceAllTells(s1, rest, services, ip, random);
    }
  }

  lemma AnnouncedOne(s: Sys, port: Port, services: seq<Svc>, ip: bool, random: nat)
    requires Inv(s) && s.named && NoRepeats(services)
    ensures s.Wf()
    ensures var t := Announce(s, port, services, ip, random);
            && t.Wf() && t.named && (forall p: Port :: p != port ==> t.Of(p) == s.Of(p))
            && if s.Of(port).ready
               then t.Of(port).ready && t.Of(port).state == if StillProbes(s.Of(port).state) then Probe1 else Ann1
               else t.Of(port) == s.Of(port)
  {
    hide QInv, Announce, InitProbe, Joins, Asks, Tells, Gains, Others, NoRepeats, Lasting, Claims;
    assert PortInv(s, port);
    var was := s.Of(port);
    if was.ready && was.state in [Ann1, Ann2, Ann3] {
      AnnouncementGrows(s, port, services, ip, random);
      assert AnnouncementIsScheduled(s.q.tx, port);
      var x :| x in s.q.tx && x.port == port;
      var i := FirstThere(s.q.tx, port, x);
    } else {
      AnnouncementBegins(s, port, services, ip, random);
      ProbeBegins(s, port, services, ip, random);
    }
  }

  lemma {:induction false} FirstThere(tx: seq<Packet>, port: Port, x: Packet) returns (i: nat)
    requires x in tx && x.port == port
    ensures FirstFor(tx, port, i)
    decreases |tx|
  {
    if tx[0].port == port {
      i := 0;
    } else {
      var k := FirstThere(tx[1..], port, x);
      i := k + 1;
      assert forall j :: 0 < j < i ==> tx[j] == tx[1..][j - 1];
    }
  }

  /** The next action: a send is carried out exactly when its packet is at the head of the list and was posted, and
   * leaves no other trace than the packet taken out. */
  lemma ActionTells(s: Sys)
    requires s.Wf() && s.q.fifo != []
    ensures var a, tx := s.q.fifo[0], s.q.tx; var rest := s.(q := s.q.(fifo := s.q.fifo[1..]));
            RunAction(s) ==
              if a.Tx? && tx != [] && tx[0].id == a.id && tx[0].queued
              then Handle(rest.(q := rest.q.(tx := tx[1..])), tx[0].(queued := false)) else rest
  {
    hide Handle;
  }
}
