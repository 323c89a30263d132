/** Whether every probe is complete.  Removing a service drops the first question of its type, which may be that of
 * another instance still being probed (mdns_send.c:1796-1814): exactly which runs keep every probe complete, and a
 * run that does not. */
module ResponderComplete {
  import opened Bytes
  import opened TxQueue
  import opened Responder
  import opened ResponderInv
  import opened ResponderRemoval
  import opened ResponderAll
  import opened ResponderRuns
  import opened ResponderAsks

  // ---------- Removing a service ----------

  /** While an interface that is up probes, its only packet is its probe. */
  predicate OnlyItsProbe(s: Sys, port: Port)
    requires forall p: Port :: p in s.pcbs
  {
    exists x :: x in s.q.tx && x.port == port && IsProbe(x.body, s.pcbs[port].services, s.pcbs[port].probeIp)
                && forall y :: y in s.q.tx && y.port == port ==> y == x
  }

  ghost predicate Complete(s: Sys)
    requires s.Wf()
  {
    forall port: Port :: s.Of(port).ready && s.Of(port).state.Probing() ==> OnlyItsProbe(s, port)
  }

  /** A removed service is not probed anywhere behind another of its type. */
  ghost predicate Orderly(s: Sys, e: Event)
    requires s.Wf()
  {
    e.RemoveSvc? ==>
      forall port: Port :: var pcb := s.Of(port);
        pcb.ready && pcb.state.Probing() && e.svc in pcb.services ==> FirstOfType(pcb.services, e.svc)
  }

  lemma AskingIsComplete(s: Sys)
    requires Inv(s) && AllAsk(s)
    ensures Complete(s)
  {
    hide QInv, NoRepeats, Claims;
    forall port: Port | s.Of(port).ready && s.Of(port).state.Probing()
      ensures OnlyItsProbe(s, port)
    {
      assert PortInv(s, port);
      AskAt(s, port);
      var pcb := s.Of(port);
      var x :| x in s.q.tx && x.port == port && Claims(x.body, pcb.services, pcb.probeIp);
      AskedHas(x.body.questions);
      assert IsProbe(x.body, pcb.services, pcb.probeIp);
    }
  }

  /** What a removal makes of an interface that probes the service: its only packet, stripped. */
  lemma RemovedProbe(s: Sys, svc: Svc, port: Port) returns (p: Packet)
    requires Inv(s) && AllAsk(s) && s.Of(port).ready && s.Of(port).state.Probing()
    ensures p in s.q.tx && p.port == port && Claims(p.body, s.Of(port).services, s.Of(port).probeIp)
    ensures Asked(p.body.questions) == s.Of(port).services && PcbOk(s.Of(port), s.named)
    ensures var (pcb, body) := Strip(s.Of(port), p.body, svc); var s' := RemoveService(s, svc);
            && s'.Of(port) == pcb
            && (pcb.state.Probing() ==> p.(body := body) in s'.q.tx
                                        && forall x :: x in s'.q.tx && x.port == port ==> x == p.(body := body))
  {
    hide Strip, StripAll, PcbOk, Claims, QInv, NoRepeats, DropOne, Empty;
    assert PortInv(s, port);
    AskAt(s, port);
    ListIsOk(s);
    p :| p in s.q.tx && p.port == port && Claims(p.body, s.Of(port).services, s.Of(port).probeIp);
    StripOne(s.q.tx, s.pcbs, svc, p);
    StripProbe(s.Of(port), p.body, svc, s.named);
    StripThins(s.q.tx, s.pcbs, svc);
    ThinnedOnlyOne(StripAll(s.q.tx, s.pcbs, svc).0, s.q.tx, port);
  }

  lemma NotProbed(pcb: Pcb, body: Body, svc: Svc)
    requires svc !in pcb.services && pcb.ready && pcb.state.Probing()
    ensures Strip(pcb, body, svc).0 == pcb && Strip(pcb, body, svc).1.questions == body.questions
  {}

  lemma RemovedPortAsks(s: Sys, svc: Svc, port: Port)
    requires Inv(s) && AllAsk(s) && Orderly(s, RemoveSvc(svc))
    ensures var s' := RemoveService(s, svc); PortAsks(s'.q.tx, s'.Of(port), port)
  {
    hide Strip, StripAll, PcbOk, Claims, QInv, DropOne, Empty, Lasting, FirstOfType, Inv, AllAsk, NoRepeats;
    AskWf(s);
    var s' := RemoveService(s, svc);
    RemoveServiceKeeps(s, svc);
    PortFacts(s, port);
    PortFacts(s', port);
    AskFacts(s, port);
    RemovedPort(s, svc, port);
    DropRepeats(s'.Of(port), s'.named);
    if s.Of(port).ready && s.Of(port).state.Probing() {
      var p := RemovedProbe(s, svc, port);
      if svc in s.Of(port).services {
        StillAskedIff(s.Of(port), p.body, svc, s.named);
      } else {
        NotProbed(s.Of(port), p.body, svc);
      }
    } else {
      NoNewProbe(s, svc, port);
    }
  }

  lemma NoNewProbe(s: Sys, svc: Svc, port: Port)
    requires Inv(s) && !(s.Of(port).ready && s.Of(port).state.Probing())
    ensures var pcb := RemoveService(s, svc).Of(port); !(pcb.ready && pcb.state.Probing())
  {
    hide Strip, StripAll, PcbOk, Lasting, QInv, NoRepeats;
    PortFacts(s, port);
    PcbFacts(s.Of(port), s.named);
    if s.Of(port).ready && s.Of(port).state.Announcing() {
      StripAnnouncing(s.q.tx, s.pcbs, svc, port, s.named);
    } else {
      StripUnconcerned(s.q.tx, s.pcbs, svc, port);
    }
  }

  /** A removal leaves every probe complete exactly when no interface probes, in front of the removed service,
   * another of its type. */
  lemma RemovalCompleteIff(s: Sys, svc: Svc)
    requires Inv(s) && AllAsk(s)
    ensures Complete(RemoveService(s, svc)) <==> Orderly(s, RemoveSvc(svc))
    ensures Orderly(s, RemoveSvc(svc)) ==> AllAsk(RemoveService(s, svc))
  {
    hide StripAll, PortAsks, Inv, OnlyItsProbe, FirstOfType;
    var s' := RemoveService(s, svc);
    RemoveServiceKeeps(s, svc);
    if Orderly(s, RemoveSvc(svc)) {
      forall port: Port
        ensures PortAsks(s'.q.tx, s'.Of(port), port)
      {
        RemovedPortAsks(s, svc, port);
      }
      DropOneIs(s.services, svc);
      AskingIsComplete(s');
    } else {
      var port: Port :| s.Of(port).ready && s.Of(port).state.Probing() && svc in s.Of(port).services
                        && !FirstOfType(s.Of(port).services, svc);
      WrongQuestionGoes(s, svc, port);
    }
  }

  /** Otherwise the interface goes on probing, and does not ask for one of the services it probes. */
  lemma WrongQuestionGoes(s: Sys, svc: Svc, port: Port)
    requires Inv(s) && AllAsk(s) && s.Of(port).ready && s.Of(port).state.Probing()
    requires svc in s.Of(port).services && !FirstOfType(s.Of(port).services, svc)
    ensures var s' := RemoveService(s, svc); var pcb := s'.Of(port);
            && pcb.ready && pcb.state == s.Of(port).state && !OnlyItsProbe(s', port)
            && exists x :: x in pcb.services &&
                 forall y :: y in s'.q.tx && y.port == port ==> ServiceQ(x) !in y.body.questions
  {
    hide Strip, StripAll, QInv, Claims, Empty, NoRepeats, Inv, AllAsk;
    AskWf(s);
    var p := RemovedProbe(s, svc, port);
    var pcb := s.Of(port);
    var (pcb', body') := Strip(pcb, p.body, svc);
    MoreThanOne(pcb.services, svc);
    StaysProbing(pcb, p.body, svc);
    DropRepeats(pcb, s.named);
    DroppedIff(pcb.services, svc);
    QuestionDropped(p.body.questions, svc);
    OneLeft(pcb, p.body, svc, s.named);
    AskedHas(body'.questions);
    StillAskedIff(pcb, p.body, svc, s.named);
  }

  lemma {:induction false} MoreThanOne(services: seq<Svc>, svc: Svc)
    requires svc in services && !FirstOfType(services, svc)
    ensures |services| > 1
  {}

  lemma StaysProbing(pcb: Pcb, body: Body, svc: Svc)
    requires pcb.ready && pcb.state.Probing() && svc in pcb.services && |pcb.services| > 1
    ensures Strip(pcb, body, svc).0.state == pcb.state && Strip(pcb, body, svc).0.ready
  {}

  // ---------- Every run ----------

  lemma StepAsks(s: Sys, e: Event)
    requires Inv(s) && AllAsk(s) && CanHappen(s, e) && Orderly(s, e)
    ensures AllAsk(Step(s, e))
  {
    hide Inv, RunAction, Enable, Disable, Announce, MarkDuplicate, RestartAll, ProbeAll, AnnounceAll, RemoveService,
         InitProbe, NoRepeats, AllAsk, Tick, RemoveKnown, Insert, AsksLike;
    AskWf(s);
    Itself(s.q.tx);
    NoneRepeat();
    match e
    case Wait(_) => FewerPackets(s, Step(s, e).q);
    case TimerTick => TickAsks(s);
    case TakeAction => RunActionAsks(s);
    case PostOther => FewerPackets(s, Step(s, e).q);
    case EnableIf(port, up, random) => AskFacts(s, port); EnableAsks(s, port, up, random);
    case DisableIf(port, up, random) => DisableAsks(s, port, up, random);
    case AnnounceIp(port, random) => AnnounceAsks(s, port, [], true, random);
    case DuplicateFound(ifx, random, random6) =>
      MarkDuplicateAsks(s, Port(ifx, false), random);
      MarkDuplicateAsks(MarkDuplicate(s, Port(ifx, false), random), Port(ifx, true), random6);
    case SetName(rnd) => SetNameAsks(s, rnd);
    case ProbeAgain(services, clear, rnd) => ProbeAllAsks(s, ALL_PORTS, services, false, clear, rnd);
    case AnnounceAgain(services, ip, rnd) => AnnounceAllAsks(s, ALL_PORTS, services, ip, rnd);
    case AddSvc(svc, rnd) => AddServiceAsks(s, svc, rnd);
    case RemoveSvc(svc) => RemovalCompleteIff(s, svc);
    case ProbeLost(port) => FailedAsks(s, port);
    case Conflict(port, services, ip, random) => AskFacts(s, port); InitProbeAsks(s, port, services, ip, random);
    case Respond(port, body, ms) => RespondAsks(s, port, body, ms);
    case KnownAnswer(port, kind, service) => KnownAsks(s, port, kind, service);
  }

  lemma TickAsks(s: Sys)
    requires Inv(s) && AllAsk(s)
    ensures AllAsk(s.(q := Tick(s.q)))
  {
    hide Tick, PortInv, QInv, AllAsk, NoRepeats;
    TickBodies(s.q);
    var tx, tx' := s.q.tx, Tick(s.q).tx;
    forall x | x in tx'
      ensures AsksLike(tx, x)
    {
      var i :| 0 <= i < |tx'| && tx'[i] == x;
      assert tx[i] in tx && x == tx[i].(queued := x.queued);
    }
    FewerPackets(s, Tick(s.q));
  }

  lemma FailedAsks(s: Sys, port: Port)
    requires AllAsk(s)
    ensures AllAsk(s.Set(port, s.Of(port).(failed := s.Of(port).failed + 1)))
  {
    hide AllAsk, NoRepeats;
    AskFacts(s, port);
    AskAt(s, port);
    Itself(s.q.tx);
    AllAskStill(s, s.Set(port, s.Of(port).(failed := s.Of(port).failed + 1)), port);
  }

  lemma RespondAsks(s: Sys, port: Port, body: Body, ms: nat)
    requires AllAsk(s) && s.Of(port).state.AfterProbing()
    ensures AllAsk(s.(q := SendNew(s.q, port, body, ms)))
  {
    hide AllAsk, NoRepeats, Insert;
    AskFacts(s, port);
    InsertMembers(s.q.tx, Packet(s.q.nextId, s.q.now + ms, false, port, body));
    Silent(s, s.(q := SendNew(s.q, port, body, ms)), port);
  }

  lemma {:induction false} KnownLike(tx: seq<Packet>, port: Port, kind: RecordType, service: Option<Svc>)
    ensures forall x :: x in RemoveKnown(tx, port, kind, service) ==> AsksLike(tx, x)
    decreases |tx|
  {
    hide DropFirst;
    if tx != [] {
      KnownLike(tx[1..], port, kind, service);
      assert tx == [tx[0]] + tx[1..];
    }
  }

  lemma KnownAsks(s: Sys, port: Port, kind: RecordType, service: Option<Svc>)
    requires AllAsk(s)
    ensures AllAsk(s.(q := s.q.(tx := RemoveKnown(s.q.tx, port, kind, service))))
  {
    KnownLike(s.q.tx, port, kind, service);
    FewerPackets(s, s.q.(tx := RemoveKnown(s.q.tx, port, kind, service)));
  }

  /** Every removal of the run is orderly when it happens. */
  ghost predicate OrderlyRun(s: Sys, events: seq<Event>)
    requires s.Wf()
    decreases |events|
  {
    events == [] || (CanHappen(s, events[0]) && Orderly(s, events[0]) && OrderlyRun(Step(s, events[0]), events[1..]))
  }

  /** Every probe is complete, in every state of the run. */
  ghost predicate AlwaysComplete(s: Sys, events: seq<Event>)
    requires s.Wf()
    decreases |events|
  {
    && Complete(s)
    && (events == [] || (CanHappen(s, events[0]) && AlwaysComplete(Step(s, events[0]), events[1..])))
  }

  lemma {:induction false} CompleteIffOrderly(s: Sys, events: seq<Event>)
    requires Inv(s) && AllAsk(s) && Run(s, events).Some?
    ensures AlwaysComplete(s, events) <==> OrderlyRun(s, events)
    decreases |events|
  {
    hide Inv, AllAsk, Complete, Step, CanHappen, Orderly, Run;
    AskWf(s);
    AskingIsComplete(s);
    if events != [] {
      var e, rest := events[0], events[1..];
      RunStep(s, events);
      if Orderly(s, e) {
        StepKeeps(s, e);
        StepAsks(s, e);
        CompleteIffOrderly(Step(s, e), rest);
      } else {
        NotOrderly(s, e);
        AtOnce(Step(s, e), rest);
      }
    }
  }

  lemma AtOnce(s: Sys, events: seq<Event>)
    requires s.Wf()
    ensures AlwaysComplete(s, events) ==> Complete(s)
  {}

  lemma NotOrderly(s: Sys, e: Event)
    requires Inv(s) && AllAsk(s) && CanHappen(s, e) && !Orderly(s, e)
    ensures !Complete(Step(s, e))
  {
    hide Complete, Inv, AllAsk;
    RemovalCompleteIff(s, e.svc);
  }

  lemma StartAsks(s: Sys)
    requires s.Wf() && Initial(s)
    ensures AllAsk(s)
  {}

  /** The probing invariant: in a run from the start, every interface that is up and probing has its probe as its
   * only packet, in every state, if and only if no removal finds another service of the type in front of the
   * removed one in a list that is being probed. */
  lemma EveryProbeIsComplete(s: Sys, events: seq<Event>)
    requires s.Wf() && Initial(s) && Run(s, events).Some?
    ensures AlwaysComplete(s, events) <==> OrderlyRun(s, events)
  {
    StartsOk(s);
    StartAsks(s);
    CompleteIffOrderly(s, events);
  }

  /** What FromTheStart says, with the probe complete: for runs whose removals are orderly. */
  lemma OrderlyFromTheStart(s: Sys, events: seq<Event>, port: Port)
    requires s.Wf() && Initial(s) && OrderlyRun(s, events)
    ensures Run(s, events).Some?
    ensures var r := Run(s, events).value; var pcb := r.Of(port);
            && (pcb.state.Dup? ==>
                  !pcb.ready && port.ifx in r.partner && r.Of(Port(r.partner[port.ifx], port.v6)).ready)
            && (pcb.ready ==> (pcb.probeRunning <==> pcb.state.Probing()))
            && (pcb.ready && pcb.services != [] ==> pcb.state.Probing())
            && (pcb.ready && pcb.state.Probing() ==> OnlyItsProbe(r, port))
            && (pcb.ready && pcb.state.Announcing() ==> exists x :: x in r.q.tx && x.port == port && Lasting(x.body))
  {
    hide Initial, Inv, AllAsk, Run, OrderlyRun, OnlyItsProbe, Lasting;
    StartsOk(s);
    StartAsks(s);
    OrderlyAsks(s, events);
    FromTheStart(s, events, port);
    AskingIsComplete(Run(s, events).value);
  }

  // ---------- A run with two instances of a type ----------

  /** Only `port` is up; it probes these services and the host's name. */
  ghost predicate Alone(s: Sys, port: Port, services: seq<Svc>) {
    && s.Wf() && s.named
    && s.Of(port) == Pcb(Probe1, services, true, true, 0, true)
    && forall p: Port :: p != port ==> !s.Of(p).ready
  }

  lemma {:induction false} ProbeAloneAll(s: Sys, ports: seq<Port>, svc: Svc, rnd: Port -> nat, port: Port,
                                         probed: seq<Svc>)
    requires Alone(s, port, if port in ports then probed else [svc] + probed) && NoRepeats(ports) && svc !in probed
    ensures var t := ProbeAll(s, ports, [svc], false, false, rnd);
            Alone(t, port, [svc] + probed) && t.services == s.services
    decreases |ports|
  {
    hide ProbeOne;
    if ports != [] {
      var rest := ports[1..];
      assert ports == [ports[0]] + rest;
      var t := ProbeOne(s, ports[0], [svc], false, false, rnd(ports[0]));
      if ports[0] == port {
        assert port !in rest;
        ProbeAlone(s, svc, rnd(port), port, probed);
      } else {
        ProbeDown(s, ports[0], [svc], false, false, rnd(ports[0]));
      }
      ProbeAloneAll(t, rest, svc, rnd, port, probed);
    }
  }

  lemma ProbeAlone(s: Sys, svc: Svc, random: nat, port: Port, probed: seq<Svc>)
    requires Alone(s, port, probed) && svc !in probed
    ensures var t := ProbeOne(s, port, [svc], false, false, random);
            Alone(t, port, [svc] + probed) && t.services == s.services
  {
    hide ProbeBody, SendNew, Without, StartProbe;
    assert [svc][1..] == [] && NewOnes([svc][1..], probed) == [];
    assert [svc] + [] == [svc];
    assert NewOnes([svc], probed) == [svc];
    var cleared := s.(q := s.q.(tx := Without(s.q.tx, port)));
    assert ProbeOne(s, port, [svc], false, false, random) == StartProbe(cleared, port, [svc], false, random);
    assert forall p: Port :: cleared.Of(p) == s.Of(p);
    ProbedBoth(cleared, port, svc, random, probed);
  }

  lemma ProbedBoth(s: Sys, port: Port, svc: Svc, random: nat, probed: seq<Svc>)
    requires Alone(s, port, probed)
    ensures var t := StartProbe(s, port, [svc], false, random);
            Alone(t, port, [svc] + probed) && t.services == s.services
  {
    hide ProbeBody, SendNew;
    assert |[svc] + probed| == 1 + |probed|;
    var t := StartProbe(s, port, [svc], false, random);
    assert forall p: Port :: p != port ==> t.Of(p) == s.Of(p);
  }

  lemma {:induction false} AllDown(s: Sys, ports: seq<Port>, services: seq<Svc>, rnd: Port -> nat)
    requires s.Wf() && forall p: Port :: !s.Of(p).ready
    ensures ProbeAll(s, ports, services, true, true, rnd) == s
    decreases |ports|
  {
    if ports != [] {
      AllDown(s, ports[1..], services, rnd);
    }
  }

  lemma FirstUp(s: Sys, port: Port, rnd: Port -> nat, random: nat)
    requires s.Wf() && Initial(s)
    ensures var s1 := Step(s, SetName(rnd));
            Alone(Step(s1, EnableIf(port, true, random)), port, [])
              && Step(s1, EnableIf(port, true, random)).services == []
  {
    hide ProbeBody, SendNew, Without, ProbeAll;
    AllDown(s.(named := true, q := s.q.(tx := [])), ALL_PORTS, s.services, rnd);
  }

  lemma PortsDiffer()
    ensures NoRepeats(ALL_PORTS)
  {}

  lemma OneMore(s: Sys, svc: Svc, rnd: Port -> nat, port: Port, probed: seq<Svc>)
    requires Alone(s, port, probed) && svc !in probed && svc !in s.services
    ensures var t := Step(s, AddSvc(svc, rnd)); Alone(t, port, [svc] + probed) && t.services == [svc] + s.services
  {
    hide ProbeAll;
    PortsDiffer();
    AllPorts(port);
    var s1 := s.(services := [svc] + s.services);
    assert forall p: Port :: s1.Of(p) == s.Of(p);
    ProbeAloneAll(s1, ALL_PORTS, svc, rnd, port, probed);
  }

  lemma {:induction false} OrderlyAsks(s: Sys, events: seq<Event>)
    requires Inv(s) && AllAsk(s) && OrderlyRun(s, events)
    ensures Run(s, events).Some? && Inv(Run(s, events).value) && AllAsk(Run(s, events).value)
    decreases |events|
  {
    hide Inv, AllAsk, Step, CanHappen, Orderly;
    AskWf(s);
    if events != [] {
      StepKeeps(s, events[0]);
      StepAsks(s, events[0]);
      OrderlyAsks(Step(s, events[0]), events[1..]);
    }
  }

  /** With a name set and one interface up, two instances of a type are added, and the one added first is removed
   * again: the interface goes on probing the other, but its only packet asks for the one removed. */
  lemma RemovedIsAskedFor(s: Sys, port: Port, a: Svc, b: Svc, rnd: Port -> nat, random: nat)
    requires s.Wf() && Initial(s) && a != b && a.key == b.key
    ensures var events := [SetName(rnd), EnableIf(port, true, random), AddSvc(a, rnd), AddSvc(b, rnd), RemoveSvc(a)];
            && Run(s, events).Some?
            && var r := Run(s, events).value;
               && r.Of(port).ready && r.Of(port).state.Probing() && r.Of(port).services == [b] && !OnlyItsProbe(r, port)
               && exists x :: x in r.q.tx && x.port == port && Asked(x.body.questions) == [a]
                              && forall y :: y in r.q.tx && y.port == port ==> y == x
  {
    hide Step, Inv, AllAsk, Initial, OnlyItsProbe, Run, Alone, RemoveService;
    var four := [SetName(rnd), EnableIf(port, true, random), AddSvc(a, rnd), AddSvc(b, rnd)];
    var s4 := TwoAdded(s, port, a, b, rnd, random);
    WellFormed(s4);
    BehindTheOther(s4, port, a, b);
    RemovalStep(s4, a);
    RunOneMore(s, four, RemoveSvc(a));
    assert four + [RemoveSvc(a)]
           == [SetName(rnd), EnableIf(port, true, random), AddSvc(a, rnd), AddSvc(b, rnd), RemoveSvc(a)];
  }

  lemma TwoAdded(s: Sys, port: Port, a: Svc, b: Svc, rnd: Port -> nat, random: nat) returns (s4: Sys)
    requires s.Wf() && Initial(s) && a != b
    ensures Run(s, [SetName(rnd), EnableIf(port, true, random), AddSvc(a, rnd), AddSvc(b, rnd)]) == Some(s4)
    ensures Inv(s4) && AllAsk(s4) && Alone(s4, port, [b, a])
  {
    hide Step, Inv, AllAsk, Initial, Run, Alone, OrderlyRun;
    var e0, e1, e2, e3 := SetName(rnd), EnableIf(port, true, random), AddSvc(a, rnd), AddSvc(b, rnd);
    FirstUp(s, port, rnd, random);
    var s2 := Step(Step(s, e0), e1);
    OneMore(s2, a, rnd, port, []);
    assert [a] + [] == [a] && [a] + s2.services == [a];
    var s3 := Step(s2, e2);
    OneMore(s3, b, rnd, port, [a]);
    s4 := Step(s3, e3);
    assert [b] + [a] == [b, a];
    FourSteps(s, e0, e1, e2, e3);
    StartsOk(s);
    StartAsks(s);
    OrderlyAsks(s, [e0, e1, e2, e3]);
  }

  lemma RemovalStep(s: Sys, svc: Svc)
    requires s.Wf()
    ensures Step(s, RemoveSvc(svc)) == RemoveService(s, svc)
  {}

  lemma FourSteps(s: Sys, e0: Event, e1: Event, e2: Event, e3: Event)
    requires s.Wf() && CanHappen(s, e0) && CanHappen(Step(s, e0), e1)
    requires CanHappen(Step(Step(s, e0), e1), e2) && CanHappen(Step(Step(Step(s, e0), e1), e2), e3)
    requires !e0.RemoveSvc? && !e1.RemoveSvc? && !e2.RemoveSvc? && !e3.RemoveSvc?
    ensures OrderlyRun(s, [e0, e1, e2, e3])
    ensures Run(s, [e0, e1, e2, e3]) == Some(Step(Step(Step(Step(s, e0), e1), e2), e3))
  {
    hide Step, CanHappen;
    assert [e0, e1, e2, e3][1..] == [e1, e2, e3] && [e1, e2, e3][1..] == [e2, e3] && [e2, e3][1..] == [e3]
           && [e3][1..] == [];
    var s1 := Step(s, e0);
    var s2 := Step(s1, e1);
    var s3 := Step(s2, e2);
    assert OrderlyRun(s3, [e3]) && Run(s3, [e3]) == Some(Step(s3, e3));
    assert OrderlyRun(s2, [e2, e3]) && Run(s2, [e2, e3]) == Run(s3, [e3]);
    assert OrderlyRun(s1, [e1, e2, e3]) && Run(s1, [e1, e2, e3]) == Run(s2, [e2, e3]);
  }

  lemma {:induction false} RunOneMore(s: Sys, events: seq<Event>, e: Event)
    requires s.Wf() && Run(s, events).Some? && CanHappen(Run(s, events).value, e)
    ensures Run(s, events + [e]) == Some(Step(Run(s, events).value, e))
    decreases |events|
  {
    hide Step, CanHappen;
    var all := events + [e];
    if events == [] {
      RunOne(s, e, []);
      assert [e] + [] == all;
    } else {
      RunStep(s, events);
      RunOneMore(Step(s, events[0]), events[1..], e);
      RunOne(s, events[0], events[1..] + [e]);
      assert [events[0]] + (events[1..] + [e]) == all;
    }
  }

  lemma BehindTheOther(s: Sys, port: Port, a: Svc, b: Svc)
    requires Inv(s) && AllAsk(s) && Alone(s, port, [b, a]) && a != b && a.key == b.key
    ensures var r := RemoveService(s, a);
            && r.Of(port).ready && r.Of(port).state.Probing() && r.Of(port).services == [b] && !OnlyItsProbe(r, port)
            && exists x :: x in r.q.tx && x.port == port && Asked(x.body.questions) == [a]
                           && forall y :: y in r.q.tx && y.port == port ==> y == x
  {
    hide Strip, StripAll, Inv, AllAsk, Claims, NoRepeats, OnlyItsProbe;
    WrongQuestionGoes(s, a, port);
    var p := RemovedProbe(s, a, port);
    OneLeft(s.Of(port), p.body, a, s.named);
    QuestionDropped(p.body.questions, a);
    assert [b, a][1..] == [a] && [a][1..] == [] && DropOne([a], a) == [];
    assert DropOne([b, a], a) == [b] && DropType([b, a], a.key) == [a];
  }
}
