/** The lists of services being probed: they name registered services only, and a merge of two of them
 * fits the list allocated for it, exactly as long as no interface that is down is made to probe. */
module ResponderLists {
  import opened Bytes
  import opened TxQueue
  import opened Responder
  import opened ResponderInv
  import opened ResponderRemoval
  import opened ResponderRuns

  // ---------- When a merge fits ----------

  /** The copy of both lists exceeds what was allocated if and only if the interface is not probing, yet
   * still has a list, and new services are to be probed. */
  lemma MergeFitsIff(s: Sys, port: Port, services: seq<Svc>, ip: bool, random: nat)
    requires s.Wf() && !s.overran
    ensures StartProbe(s, port, services, ip, random).overran <==>
              !s.Of(port).state.IsProbing() && s.Of(port).services != [] && services != []
  {
    hide ProbeBody, SendNew;
    assert |services + s.Of(port).services| == |services| + |s.Of(port).services|;
  }

  // ---------- The invariant ----------

  /** An interface that is down has nothing left of an earlier probe. */
  predicate Tidy(pcb: Pcb) {
    !pcb.ready ==> (pcb.state.Off? || pcb.state.Dup?) && pcb.services == [] && !pcb.probeIp && !pcb.probeRunning
  }

  predicate Within(a: seq<Svc>, b: seq<Svc>) {
    forall svc :: svc in a ==> svc in b
  }

  ghost predicate Neat(s: Sys) {
    && s.Wf() && !s.overran
    && forall port: Port :: Tidy(s.Of(port)) && Within(s.Of(port).services, s.services)
  }

  /** Nothing makes an interface that is down probe. */
  predicate Calm(s: Sys, e: Event)
    requires forall p: Port :: p in s.pcbs
  {
    e.Conflict? ==> s.pcbs[e.port].ready
  }

  lemma NeatAt(s: Sys, s': Sys, port: Port)
    requires Neat(s) && s'.Wf() && s'.services == s.services && !s'.overran
    requires forall p: Port :: p != port ==> s'.Of(p) == s.Of(p)
    requires Tidy(s'.Of(port)) && Within(s'.Of(port).services, s.services)
    ensures Neat(s')
  {}

  lemma {:induction false} NewOnesWithin(services: seq<Svc>, probed: seq<Svc>)
    ensures Within(NewOnes(services, probed), services)
    decreases |services|
  {
    if services != [] {
      NewOnesWithin(services[1..], probed);
      assert services == [services[0]] + services[1..];
    }
  }

  lemma InitProbeNeat(s: Sys, port: Port, services: seq<Svc>, ip: bool, random: nat)
    requires Neat(s) && s.Of(port).ready && Within(services, s.services)
    requires s.Of(port).services == [] || s.Of(port).state.IsProbing()
    ensures Neat(InitProbe(s, port, services, ip, random))
    ensures InitProbe(s, port, services, ip, random).Of(port).ready
  {
    hide ProbeBody, SendNew, NewOnes, Without;
    var pcb := s.Of(port);
    var s' := InitProbe(s, port, services, ip, random);
    NewOnesWithin(services, pcb.services);
    var added := if pcb.state.IsProbing() then NewOnes(services, pcb.services) else services;
    assert |added + pcb.services| == |added| + |pcb.services|;
    assert forall x :: x in added + pcb.services ==> x in s.services;
    NeatAt(s, s', port);
  }

  lemma EnableNeat(s: Sys, port: Port, up: bool, random: nat)
    requires Neat(s) && (s.Of(port).services == [] || s.Of(port).state.IsProbing())
    ensures Neat(Enable(s, port, up, random))
  {
    hide InitProbe;
    var pcb := s.Of(port);
    if !pcb.ready && !up {
      NeatAt(s, Enable(s, port, up, random), port);
    } else {
      var on := s.Set(port, pcb.(ready := true));
      NeatAt(s, on, port);
      InitProbeNeat(on, port, on.services, true, random);
    }
  }

  lemma DisableNeat(s: Sys, port: Port, up: bool, random: nat)
    requires Inv(s) && Neat(s)
    ensures Neat(Disable(s, port, up, random))
  {
    hide Enable, Without, QInv, PortInv;
    if s.Of(port).ready {
      var down := s.(q := s.q.(tx := Without(s.q.tx, port))).Set(port, DOWN);
      NeatAt(s, down, port);
      if Partner(s, port).Some? && down.Of(Partner(s, port).value).state.Dup? {
        var other := Partner(s, port).value;
        var off := down.Set(other, down.Of(other).(state := Off));
        PortFacts(s, other);
        NeatAt(down, off, other);
        EnableNeat(off, other, up, random);
        EnableElsewhere(off, port, other, up, random);
        NeatAt(Enable(off, other, up, random), Disable(s, port, up, random), port);
      } else {
        NeatAt(down, Disable(s, port, up, random), port);
      }
    } else {
      NeatAt(s, Disable(s, port, up, random), port);
    }
  }

  lemma EnableElsewhere(s: Sys, port: Port, other: Port, up: bool, random: nat)
    requires s.Wf() && port != other
    ensures Enable(s, other, up, random).Of(port) == s.Of(port)
    ensures Enable(s, other, up, random).services == s.services
  {
    hide ProbeBody, SendNew, NewOnes, Without;
  }

  /** An interface that is up and not probing has an empty list. */
  lemma IdleIsEmpty(s: Sys, port: Port)
    requires Inv(s) && s.Of(port).ready
    ensures s.Of(port).services == [] || s.Of(port).state.IsProbing()
  {
    PortFacts(s, port);
  }

  lemma AnnounceNeat(s: Sys, port: Port, services: seq<Svc>, ip: bool, random: nat)
    requires Inv(s) && Neat(s) && Within(services, s.services)
    ensures Neat(Announce(s, port, services, ip, random))
  {
    hide InitProbe, QInv, PortInv, SendNew, AnnounceBody, Extend;
    if s.Of(port).ready {
      IdleIsEmpty(s, port);
      if s.Of(port).state.IsProbing() {
        InitProbeNeat(s, port, services, ip, random);
      } else {
        NeatAt(s, Announce(s, port, services, ip, random), port);
      }
    }
  }

  lemma MarkDuplicateNeat(s: Sys, port: Port, random: nat)
    requires Inv(s) && Neat(s)
    ensures Neat(MarkDuplicate(s, port, random))
  {
    hide Announce, QInv, Without, PortInv;
    if Partner(s, port).Some? && s.Of(Partner(s, port).value).ready {
      var other := Partner(s, port).value;
      var s1 := if s.Of(port).ready then s.(q := s.q.(tx := Without(s.q.tx, port))).Set(port, DOWN) else s;
      var s2 := s1.Set(port, s1.Of(port).(state := Dup));
      NeatAt(s, s2, port);
      MarkedKeeps(s, port);
      AnnounceNeat(s2, other, [], true, random);
    }
  }

  lemma ScheduledElsewhere(s: Sys, p: Packet)
    requires s.Wf()
    ensures var s' := ScheduleNext(s, p);
            && s'.services == s.services && s'.overran == s.overran
            && forall o: Port :: o != p.port ==> s'.Of(o) == s.Of(o)
  {
    hide SendNew, SendAfter, AnnounceFromProbe;
  }

  /** The state an interface is in once its packet was sent. */
  function NextState(state: PState): PState {
    match state
    case Probe1 => Probe2
    case Probe2 => Probe3
    case Probe3 => Ann1
    case Ann1 => Ann2
    case Ann2 => Ann3
    case Ann3 => Running
    case _ => state
  }

  function NextPcb(pcb: Pcb): Pcb {
    if pcb.state.Probe3? then Pcb(Ann1, [], false, false, 0, pcb.ready) else pcb.(state := NextState(pcb.state))
  }

  lemma ScheduledPcb(s: Sys, p: Packet)
    requires s.Wf()
    ensures ScheduleNext(s, p).Of(p.port) == NextPcb(s.Of(p.port))
    ensures NextPcb(s.Of(p.port)).state == NextState(s.Of(p.port).state)
  {
    hide SendNew, SendAfter, AnnounceFromProbe;
  }

  lemma HandledPcb(s: Sys, p: Packet)
    requires s.Wf()
    ensures var s' := Handle(s, p);
            && s'.services == s.services && s'.overran == s.overran
            && (forall o: Port :: o != p.port ==> s'.Of(o) == s.Of(o))
            && s'.Of(p.port) == NextPcb(s.Of(p.port))
  {
    hide ScheduleNext;
    ScheduledElsewhere(s, p);
    ScheduledPcb(s, p);
  }

  lemma HandleNeat(s: Sys, p: Packet)
    requires Neat(s)
    ensures Neat(Handle(s, p))
  {
    hide Handle;
    HandledPcb(s, p);
    NeatAt(s, Handle(s, p), p.port);
  }

  lemma TakeActionNeat(s: Sys)
    requires Neat(s)
    ensures Neat(RunAction(s))
  {
    hide Handle, Claimed;
    if s.q.fifo != [] {
      var q := s.q.(fifo := s.q.fifo[1..]);
      QueueNeat(s, q);
      if s.q.fifo[0].Tx? && Claimed(q, s.q.fifo[0].id).Some? {
        var p := Claimed(q, s.q.fifo[0].id).value;
        QueueNeat(s, AfterClaim(q, p.id));
        HandleNeat(s.(q := AfterClaim(q, p.id)), p);
      }
    }
  }

  lemma QueueNeat(s: Sys, q: Queue)
    requires Neat(s)
    ensures Neat(s.(q := q))
  {
    assert forall p: Port :: s.(q := q).Of(p) == s.Of(p);
  }

  lemma {:induction false} ProbeAllNeat(s: Sys, left: seq<Port>, services: seq<Svc>, ip: bool, clear: bool,
                                        rnd: Port -> nat)
    requires Neat(s) && Within(services, s.services)
    requires forall p: Port :: PcbOk(s.Of(p), s.named)
    requires NoRepeats(services) && (services != [] || ip)
    ensures Neat(ProbeAll(s, left, services, ip, clear, rnd))
    decreases |left|
  {
    hide ProbeOne, NoRepeats;
    if left != [] {
      var s' := ProbeOne(s, left[0], services, ip, clear, rnd(left[0]));
      ProbeOneNeat(s, left[0], services, ip, clear, rnd(left[0]));
      ProbeAllNeat(s', left[1..], services, ip, clear, rnd);
    }
  }

  lemma ProbeOneNeat(s: Sys, port: Port, services: seq<Svc>, ip: bool, clear: bool, random: nat)
    requires Neat(s) && Within(services, s.services)
    requires forall p: Port :: PcbOk(s.Of(p), s.named)
    requires NoRepeats(services) && (services != [] || ip)
    ensures var s' := ProbeOne(s, port, services, ip, clear, random);
            Neat(s') && s'.services == s.services && s'.named == s.named && forall p: Port :: PcbOk(s'.Of(p), s'.named)
  {
    hide InitProbe, NoRepeats, QInv;
    NoneRepeat();
    var pcb := s.Of(port);
    if pcb.ready {
      var s1 := if clear then s.Set(port, pcb.(services := [], probeRunning := false)) else s;
      NeatAt(s, s1, port);
      InitProbeNeat(s1, port, services, ip, random);
      ProbedPcb(s1, port, services, ip, random);
    }
  }

  /** What probing does to the interfaces, whatever the packets. */
  lemma ProbedPcb(s: Sys, port: Port, services: seq<Svc>, ip: bool, random: nat)
    requires s.Wf() && CanProbe(s, port) && s.Of(port).ready && NoRepeats(services) && (services != [] || ip)
    ensures var s' := InitProbe(s, port, services, ip, random);
            && s'.services == s.services && s'.named == s.named && PcbOk(s'.Of(port), s'.named)
            && forall p: Port :: p != port ==> s'.Of(p) == s.Of(p)
  {
    hide ProbeBody, SendNew, Without, NewOnes, NoRepeats, StartProbe;
    var cleared := s.(q := s.q.(tx := Without(s.q.tx, port)));
    var pcb := s.Of(port);
    NewOnesAre(services, pcb.services);
    if s.named {
      var added := if pcb.state.IsProbing() then NewOnes(services, pcb.services) else services;
      MergedServices(cleared, port, added, ip, random);
      StartedPcb(cleared, port, added, ip, random);
    }
  }

  lemma StartedPcb(s: Sys, port: Port, services: seq<Svc>, ip: bool, random: nat)
    requires s.Wf()
    ensures var s' := StartProbe(s, port, services, ip, random);
            && s'.services == s.services && s'.named == s.named
            && (forall p: Port :: p != port ==> s'.Of(p) == s.Of(p))
            && s'.Of(port) == Pcb(Probe1, s'.Of(port).services, s.Of(port).probeIp || ip, true, s.Of(port).failed,
                                  s.Of(port).ready)
  {
    hide ProbeBody, SendNew;
  }

  lemma {:induction false} AnnounceAllNeat(s: Sys, ports: seq<Port>, services: seq<Svc>, ip: bool, rnd: Port -> nat)
    requires Inv(s) && Neat(s) && Within(services, s.services) && NoRepeats(services) && (services != [] || ip)
    ensures Neat(AnnounceAll(s, ports, services, ip, rnd))
    decreases |ports|
  {
    hide Inv, NoRepeats, Announce;
    if ports != [] {
      var s' := Announce(s, ports[0], services, ip, rnd(ports[0]));
      AnnounceKeeps(s, ports[0], services, ip, rnd(ports[0]));
      AnnounceNeat(s, ports[0], services, ip, rnd(ports[0]));
      AnnounceServices(s, ports[0], services, ip, rnd(ports[0]));
      AnnounceAllNeat(s', ports[1..], services, ip, rnd);
    }
  }

  lemma AnnounceServices(s: Sys, port: Port, services: seq<Svc>, ip: bool, random: nat)
    requires s.Wf()
    ensures Announce(s, port, services, ip, random).services == s.services
  {
    hide ProbeBody, SendNew, NewOnes, Without;
  }

  // ---------- Removing a service ----------

  lemma RemovedList(s: Sys, svc: Svc, port: Port)
    requires Inv(s) && Neat(s)
    ensures Within(RemoveService(s, svc).Of(port).services, RemoveService(s, svc).services)
    ensures Tidy(RemoveService(s, svc).Of(port))
  {
    hide Strip, StripAll, PcbOk, Lasting, Claims, QInv, NoRepeats, DropOne;
    var pcb := s.Of(port);
    assert PortInv(s, port);
    PcbFacts(pcb, s.named);
    ListIsOk(s);
    DropOneIs(s.services, svc);
    if pcb.ready && pcb.state.Probing() {
      var p :| p in s.q.tx && p.port == port && Claims(p.body, pcb.services, pcb.probeIp);
      StripOne(s.q.tx, s.pcbs, svc, p);
      StrippedList(pcb, p.body, svc, s.named);
    } else if pcb.ready && pcb.state.Announcing() {
      StripAnnouncing(s.q.tx, s.pcbs, svc, port, s.named);
      IdleList(pcb, s.named);
    } else {
      StripUnconcerned(s.q.tx, s.pcbs, svc, port);
      IdleList(pcb, s.named);
    }
  }

  lemma IdleList(pcb: Pcb, named: bool)
    requires PcbOk(pcb, named) && Tidy(pcb) && !(pcb.ready && pcb.state.Probing())
    ensures pcb.services == []
  {}

  lemma StrippedList(pcb: Pcb, body: Body, svc: Svc, named: bool)
    requires PcbOk(pcb, named) && pcb.ready && pcb.state.Probing()
    ensures var after := Strip(pcb, body, svc).0;
            after.ready && forall x :: x in after.services ==> x in pcb.services && x != svc
  {
    DropOneIs(pcb.services, svc);
  }

  lemma RemoveServiceNeat(s: Sys, svc: Svc)
    requires Inv(s) && Neat(s)
    ensures Neat(RemoveService(s, svc))
  {
    hide StripAll, Tidy, Within, Inv;
    forall port: Port
      ensures var r := RemoveService(s, svc); Tidy(r.Of(port)) && Within(r.Of(port).services, r.services)
    {
      RemovedList(s, svc, port);
    }
  }

  // ---------- Every calm run ----------

  lemma CalmStep(s: Sys, e: Event)
    requires Inv(s) && Neat(s) && CanHappen(s, e) && Calm(s, e)
    ensures Neat(Step(s, e))
  {
    hide QInv, PortInv, RunAction, Enable, Disable, Announce, MarkDuplicate, ProbeAll, AnnounceAll, RemoveService,
         InitProbe, SendNew, NoRepeats, Neat, PcbOk, RemoveKnown, Tick;
    assert Neat(s) ==> s.Wf();
    match e
    case Wait(ms) => QueueNeat(s, Step(s, e).q);
    case TimerTick => QueueNeat(s, Step(s, e).q);
    case TakeAction => TakeActionNeat(s);
    case PostOther => QueueNeat(s, Step(s, e).q);
    case EnableIf(port, up, random) => AnyIsEmpty(s, port); EnableNeat(s, port, up, random);
    case DisableIf(port, up, random) => DisableNeat(s, port, up, random);
    case AnnounceIp(port, random) => AnnounceNeat(s, port, [], true, random);
    case DuplicateFound(ifx, random, random6) =>
      MarkDuplicateNeat(s, Port(ifx, false), random);
      MarkDuplicateKeeps(s, Port(ifx, false), random);
      MarkDuplicateNeat(MarkDuplicate(s, Port(ifx, false), random), Port(ifx, true), random6);
    case SetName(rnd) => SetNameNeat(s, rnd);
    case ProbeAgain(services, clear, rnd) => AllPcbsOk(s); ProbeAllNeat(s, ALL_PORTS, services, false, clear, rnd);
    case AnnounceAgain(services, ip, rnd) => AnnounceAllNeat(s, ALL_PORTS, services, ip, rnd);
    case AddSvc(svc, rnd) => AddServiceNeat(s, svc, rnd);
    case RemoveSvc(svc) => RemoveServiceNeat(s, svc);
    case ProbeLost(port) => ProbeLostNeat(s, port);
    case Conflict(port, services, ip, random) => IdleIsEmpty(s, port); InitProbeNeat(s, port, services, ip, random);
    case Respond(port, body, ms) => QueueNeat(s, Step(s, e).q);
    case KnownAnswer(_, _, _) => QueueNeat(s, Step(s, e).q);
  }

  lemma AnyIsEmpty(s: Sys, port: Port)
    requires Inv(s) && Neat(s)
    ensures s.Of(port).services == [] || s.Of(port).state.IsProbing()
  {
    if s.Of(port).ready {
      IdleIsEmpty(s, port);
    }
  }

  lemma AllPcbsOk(s: Sys)
    requires Inv(s)
    ensures forall p: Port :: PcbOk(s.Of(p), s.named)
  {
    forall p: Port
      ensures PcbOk(s.Of(p), s.named)
    {
      PortFacts(s, p);
    }
  }

  lemma ProbeLostNeat(s: Sys, port: Port)
    requires Neat(s)
    ensures Neat(s.Set(port, s.Of(port).(failed := s.Of(port).failed + 1)))
  {
    NeatAt(s, s.Set(port, s.Of(port).(failed := s.Of(port).failed + 1)), port);
  }

  lemma SetNameNeat(s: Sys, rnd: Port -> nat)
    requires Inv(s) && Neat(s)
    ensures Neat(RestartAll(s.(named := true), rnd))
  {
    hide QInv, ProbeAll, NoRepeats;
    AllPcbsOk(s);
    var s1 := s.(q := s.q.(tx := []), named := true);
    assert forall p: Port :: s1.Of(p) == s.Of(p);
    ProbeAllNeat(s1, ALL_PORTS, s1.services, true, true, rnd);
  }

  lemma AddServiceNeat(s: Sys, svc: Svc, rnd: Port -> nat)
    requires Inv(s) && Neat(s)
    ensures Neat(ProbeAll(s.(services := [svc] + s.services), ALL_PORTS, [svc], false, false, rnd))
  {
    hide QInv, ProbeAll, PortInv, PcbOk;
    AllPcbsOk(s);
    var s1 := s.(services := [svc] + s.services);
    assert forall p: Port :: s1.Of(p) == s.Of(p);
    ProbeAllNeat(s1, ALL_PORTS, [svc], false, false, rnd);
  }

  /** Run, with nothing making an interface that is down probe. */
  predicate CalmRun(s: Sys, events: seq<Event>)
    requires s.Wf()
    decreases |events|
  {
    events == [] || (CanHappen(s, events[0]) && Calm(s, events[0]) && CalmRun(Step(s, events[0]), events[1..]))
  }

  /** In such runs no merge ever exceeds its list, and no interface probes a service that is gone. */
  lemma {:induction false} EveryCalmRun(s: Sys, events: seq<Event>)
    requires Inv(s) && Neat(s) && CalmRun(s, events)
    ensures Run(s, events).Some? && Inv(Run(s, events).value) && Neat(Run(s, events).value)
    decreases |events|
  {
    hide Inv, Step, CanHappen, Neat, Calm;
    WellFormed(s);
    if events != [] {
      StepKeeps(s, events[0]);
      CalmStep(s, events[0]);
      CalmRest(s, events);
      EveryCalmRun(Step(s, events[0]), events[1..]);
    }
  }

  lemma CalmRest(s: Sys, events: seq<Event>)
    requires s.Wf() && CalmRun(s, events) && events != []
    ensures CanHappen(s, events[0]) && Calm(s, events[0]) && CalmRun(Step(s, events[0]), events[1..])
    ensures Run(s, events) == Run(Step(s, events[0]), events[1..])
  {}

  lemma ProbedWhileDown(s: Sys, port: Port, svc: Svc, random: nat)
    requires s.Wf() && s.named && s.Of(port) == DOWN && svc in s.services
    ensures CanHappen(s, Conflict(port, [svc], false, random))
    ensures var s' := Step(s, Conflict(port, [svc], false, random));
            s'.Of(port).services == [svc] && !s'.Of(port).ready && s'.named && s'.services == s.services
  {
    hide ProbeBody, SendNew, Without;
    assert [svc] + [] == [svc];
  }

  lemma TakenDown(s: Sys, port: Port, random: nat)
    requires s.Wf() && !s.Of(port).ready
    ensures Step(s, DisableIf(port, true, random)) == s.Set(port, s.Of(port).(state := Off))
  {}

  lemma UpAgain(s: Sys, port: Port, random: nat)
    requires s.Wf() && s.named && s.Of(port).state.Off? && s.Of(port).services != [] && s.services != []
    ensures Step(s, EnableIf(port, true, random)).overran
  {
    hide ProbeBody, SendNew, Without;
    assert |s.services + s.Of(port).services| == |s.services| + |s.Of(port).services|;
  }

  /** The condition is needed: whenever a registered service is found in conflict on an interface that is
   * down, taking that interface down and up again copies past the list. */
  lemma ConflictWhileDown(s: Sys, port: Port, svc: Svc, random: nat)
    requires Neat(s) && s.named && s.Of(port) == DOWN && svc in s.services
    ensures var events := [Conflict(port, [svc], false, random), DisableIf(port, true, random),
            EnableIf(port, true, random)];
            Run(s, events).Some? && Run(s, events).value.overran
  {
    hide Step;
    var e0, e1, e2 := Conflict(port, [svc], false, random), DisableIf(port, true, random), EnableIf(port, true, random);
    ProbedWhileDown(s, port, svc, random);
    TakenDown(Step(s, e0), port, random);
    UpAgain(Step(Step(s, e0), e1), port, random);
    RunOne(s, e0, [e1, e2]);
    RunOne(Step(s, e0), e1, [e2]);
    RunOne(Step(Step(s, e0), e1), e2, []);
    assert [e0] + [e1, e2] == [e0, e1, e2] && [e1] + [e2] == [e1, e2] && [e2] + [] == [e2];
  }

  // ---------- Probes of interfaces that are down ----------

  lemma ProbedPackets(s: Sys, port: Port, services: seq<Svc>, ip: bool, random: nat)
    requires s.Wf()
    ensures forall x :: x in InitProbe(s, port, services, ip, random).q.tx ==> x in s.q.tx || x.port == port
  {
    hide ProbeBody, Without, NewOnes, Insert;
    WithoutThins(s.q.tx, port);
    var cleared := s.(q := s.q.(tx := Without(s.q.tx, port)));
    var added := if s.Of(port).state.IsProbing() then NewOnes(services, s.Of(port).services) else services;
    if s.named {
      var after := StartProbe(cleared, port, added, ip, random);
      StartedPacket(cleared, port, added, ip, random);
      var x: Packet :| x.port == port && after.q.tx == Insert(cleared.q.tx, x);
      InsertMembers(cleared.q.tx, x);
    }
  }

  lemma StartedPacket(s: Sys, port: Port, services: seq<Svc>, ip: bool, random: nat)
    requires s.Wf()
    ensures exists x: Packet :: x.port == port && StartProbe(s, port, services, ip, random).q.tx == Insert(s.q.tx, x)
  {
    hide ProbeBody, Insert;
    var after := StartProbe(s, port, services, ip, random);
    var pcb := after.Of(port);
    var delay := (if s.Of(port).failed > 5 then 1000 else 120) + random % 128;
    assert after.q.tx == Insert(s.q.tx,
           Packet(s.q.nextId, s.q.now + delay, false, port, ProbeBody(pcb.services, pcb.probeIp)));
  }

  lemma {:induction false} NothingForDown(s: Sys, left: seq<Port>, services: seq<Svc>, ip: bool, clear: bool,
                                          rnd: Port -> nat, port: Port)
    requires s.Wf() && !s.Of(port).ready && forall x :: x in s.q.tx ==> x.port != port
    ensures var r := ProbeAll(s, left, services, ip, clear, rnd);
            r.Of(port) == s.Of(port) && forall x :: x in r.q.tx ==> x.port != port
    decreases |left|
  {
    hide InitProbe;
    if left != [] {
      var first := left[0];
      if s.Of(first).ready {
        var t := if clear then s.Set(first, s.Of(first).(services := [], probeRunning := false)) else s;
        ProbedPackets(t, first, services, ip, rnd(first));
        ProbeElsewhere(t, first, services, ip, rnd(first), port);
      }
      NothingForDown(ProbeOne(s, first, services, ip, clear, rnd(first)), left[1..], services, ip, clear, rnd, port);
    }
  }

  lemma ProbeElsewhere(s: Sys, port: Port, services: seq<Svc>, ip: bool, random: nat, other: Port)
    requires s.Wf() && other != port
    ensures InitProbe(s, port, services, ip, random).Of(other) == s.Of(other)
  {
    hide ProbeBody, SendNew, Without, NewOnes;
  }

  lemma ProbesWhileDown(s: Sys, port: Port, svc: Svc, random: nat)
    requires s.Wf() && s.named && s.Of(port) == DOWN && svc in s.services
    ensures CanHappen(s, Conflict(port, [svc], false, random))
    ensures var t := Step(s, Conflict(port, [svc], false, random)); t.Of(port).state.Probe1? && !t.Of(port).ready
  {
    hide ProbeBody, SendNew, Without;
  }

  /** That the probe of a probing interface is always scheduled holds of interfaces that are up only: one that is
   * down and found in conflict probes too, and giving the device another name takes its probe away. */
  lemma DownLosesItsProbe(s: Sys, port: Port, svc: Svc, random: nat, rnd: Port -> nat)
    requires s.Wf() && s.named && s.Of(port) == DOWN && svc in s.services
    ensures var events := [Conflict(port, [svc], false, random), SetName(rnd)];
            && Run(s, events).Some?
            && var r := Run(s, events).value;
               r.Of(port).state.Probing() && forall x :: x in r.q.tx ==> x.port != port
  {
    hide Step;
    var e0, e1 := Conflict(port, [svc], false, random), SetName(rnd);
    ProbesWhileDown(s, port, svc, random);
    var t := Step(s, e0);
    NamedAgain(t, port, rnd);
    RunOne(s, e0, [e1]);
    RunOne(t, e1, []);
    assert [e0] + [e1] == [e0, e1] && [e1] + [] == [e1];
  }

  lemma NamedAgain(t: Sys, port: Port, rnd: Port -> nat)
    requires t.Wf() && !t.Of(port).ready
    ensures var r := Step(t, SetName(rnd)); r.Of(port) == t.Of(port) && forall x :: x in r.q.tx ==> x.port != port
  {
    hide ProbeAll;
    var u := t.(named := true, q := t.q.(tx := []));
    assert u.Of(port) == t.Of(port);
    NothingForDown(u, ALL_PORTS, u.services, true, true, rnd, port);
  }
}
