/** Which services a probe asks for, and that every step but the removal of a service leaves probes that ask for
 * exactly what is probed. */
module ResponderAsks {
  import opened Bytes
  import opened TxQueue
  import opened Responder
  import opened ResponderInv
  import opened ResponderRemoval
  import opened ResponderLists

  // ---------- The services asked for ----------

  function Asked(questions: seq<Question>): seq<Svc> {
    if questions == [] then []
    else (if questions[0].ServiceQ? then [questions[0].service] else []) + Asked(questions[1..])
  }

  lemma {:induction false} AskedAppend(a: seq<Question>, b: seq<Question>)
    ensures Asked(a + b) == Asked(a) + Asked(b)
    decreases |a|
  {
    if a == [] {
      assert a + b == b;
    } else {
      assert (a + b)[0] == a[0] && (a + b)[1..] == a[1..] + b;
      AskedAppend(a[1..], b);
    }
  }

  lemma {:induction false} AskedHas(questions: seq<Question>)
    ensures forall svc :: svc in Asked(questions) <==> ServiceQ(svc) in questions
    decreases |questions|
  {
    if questions != [] {
      AskedHas(questions[1..]);
      assert questions == [questions[0]] + questions[1..];
    }
  }

  lemma AskedOne(q: Question)
    ensures Asked([q]) == if q.ServiceQ? then [q.service] else []
  {
    assert Asked([q][1..]) == [];
  }

  lemma {:induction false} ServicesAsked(services: seq<Svc>)
    requires NoRepeats(services)
    ensures Asked(ServiceQuestions(services)) == services
    decreases |services|
  {
    if services != [] {
      var before, last := services[..|services| - 1], services[|services| - 1];
      ServicesAsked(before);
      AskedHas(ServiceQuestions(before));
      assert last !in before;
      AskedAppend(ServiceQuestions(before), [ServiceQ(last)]);
      AskedOne(ServiceQ(last));
      assert services == before + [last];
    }
  }

  lemma {:induction false} HostsNotAsked(questions: seq<Question>, services: seq<Svc>)
    ensures Asked(HostQuestions(questions, services)) == Asked(questions)
    decreases |services|
  {
    if services != [] {
      var q := HostQ(Some(services[0]));
      AskedAppend(questions, [q]);
      AskedOne(q);
      HostsNotAsked(AddQuestion(questions, q), services[1..]);
    }
  }

  /** A new probe asks for its services, in their order. */
  lemma ProbeAsksAll(services: seq<Svc>, ip: bool)
    requires NoRepeats(services)
    ensures Asked(ProbeBody(services, ip).questions) == services
  {
    var questions := ServiceQuestions(services);
    ServicesAsked(services);
    AskedAppend(questions, [HostQ(None)]);
    AskedOne(HostQ(None));
    HostsNotAsked(AddQuestion(questions, HostQ(None)), services);
  }

  // ---------- Removing one service ----------

  /** No service before `svc` is of its type. */
  predicate FirstOfType(services: seq<Svc>, svc: Svc) {
    services == [] || services[0] == svc || (services[0].key != svc.key && FirstOfType(services[1..], svc))
  }

  function DropType(services: seq<Svc>, key: nat): seq<Svc> {
    if services == [] then []
    else if services[0].key == key then services[1..]
    else [services[0]] + DropType(services[1..], key)
  }

  lemma {:induction false} QuestionDropped(questions: seq<Question>, svc: Svc)
    ensures Asked(DropQuestion(questions, svc)) == DropType(Asked(questions), svc.key)
    decreases |questions|
  {
    if questions != [] {
      QuestionDropped(questions[1..], svc);
      AskedAppend([questions[0]], questions[1..]);
      AskedAppend([questions[0]], DropQuestion(questions[1..], svc));
      AskedOne(questions[0]);
      assert questions == [questions[0]] + questions[1..];
      assert [] + Asked(questions[1..]) == Asked(questions[1..]);
      if questions[0].ServiceQ? {
        assert Asked(questions)[1..] == Asked(questions[1..]);
      } else {
        assert [] + Asked(DropQuestion(questions[1..], svc)) == Asked(DropQuestion(questions[1..], svc));
      }
    }
  }

  /** The service removed is the one whose question goes exactly when it is the first of its type. */
  lemma {:induction false} DroppedIff(services: seq<Svc>, svc: Svc)
    requires NoRepeats(services) && svc in services
    ensures FirstOfType(services, svc) ==> DropType(services, svc.key) == DropOne(services, svc)
    ensures !FirstOfType(services, svc) ==> exists x :: x in DropOne(services, svc) && x !in DropType(services, svc.key)
    decreases |services|
  {
    var first, rest := services[0], services[1..];
    assert services == [first] + rest;
    assert first !in rest;
    if first != svc && first.key != svc.key {
      DroppedIff(rest, svc);
      if !FirstOfType(rest, svc) {
        var x :| x in DropOne(rest, svc) && x !in DropType(rest, svc.key);
        DropOneIs(rest, svc);
        assert x in DropOne(services, svc) && x !in DropType(services, svc.key);
      }
    } else if first != svc {
      assert first in DropOne(services, svc) && first !in DropType(services, svc.key);
    }
  }

  /** One removal from a complete probe: every service left is still asked for if and only if no service that
   * stands before the removed one, and is still probed, has its type. */
  lemma StillAskedIff(pcb: Pcb, body: Body, svc: Svc, named: bool)
    requires PcbOk(pcb, named) && pcb.ready && pcb.state.Probing() && Claims(body, pcb.services, pcb.probeIp)
    requires Asked(body.questions) == pcb.services && svc in pcb.services
    ensures var (pcb', body') := Strip(pcb, body, svc);
            pcb'.state.Probing() ==>
              && (IsProbe(body', pcb'.services, pcb'.probeIp) <==> FirstOfType(pcb.services, svc))
              && (FirstOfType(pcb.services, svc) ==> Asked(body'.questions) == pcb'.services)
  {
    hide Claims, FirstOfType, DropType, NoRepeats;
    StripProbe(pcb, body, svc, named);
    OneLeft(pcb, body, svc, named);
    QuestionDropped(body.questions, svc);
    DropRepeats(pcb, named);
    DroppedIff(pcb.services, svc);
    AskedHas(Strip(pcb, body, svc).1.questions);
  }

  lemma DropRepeats(pcb: Pcb, named: bool)
    requires PcbOk(pcb, named)
    ensures NoRepeats(pcb.services)
  {}

  lemma OneLeft(pcb: Pcb, body: Body, svc: Svc, named: bool)
    requires PcbOk(pcb, named) && pcb.ready && pcb.state.Probing() && svc in pcb.services
    ensures var (pcb', body') := Strip(pcb, body, svc);
            && pcb'.services == DropOne(pcb.services, svc)
            && body'.questions == DropQuestion(body.questions, svc)
  {
    if |pcb.services| == 1 {
      assert pcb.services[1..] == [];
    }
  }

  // ---------- Complete probes ----------

  /** Every packet of an interface that is up and probing asks for what is probed, and for nothing else. */
  predicate PortAsks(tx: seq<Packet>, pcb: Pcb, port: Port) {
    && NoRepeats(pcb.services)
    && (pcb.ready && pcb.state.Probing() ==>
          forall x :: x in tx && x.port == port ==> Asked(x.body.questions) == pcb.services)
  }

  ghost predicate AllAsk(s: Sys) {
    s.Wf() && NoRepeats(s.services) && forall port: Port :: PortAsks(s.q.tx, s.Of(port), port)
  }

  /** The same but for one interface. */
  ghost predicate OthersAsk(s: Sys, port: Port) {
    && s.Wf() && NoRepeats(s.services) && NoRepeats(s.Of(port).services)
    && forall p: Port :: p != port ==> PortAsks(s.q.tx, s.Of(p), p)
  }

  /** Another packet of an interface asks the same. */
  ghost predicate AsksLike(tx: seq<Packet>, x: Packet) {
    exists y :: y in tx && y.port == x.port && y.body.questions == x.body.questions
  }

  lemma PortAsksStill(tx: seq<Packet>, pcb: Pcb, tx': seq<Packet>, pcb': Pcb, port: Port)
    requires PortAsks(tx, pcb, port)
    requires pcb'.services == pcb.services && (pcb'.ready && pcb'.state.Probing() ==> pcb.ready && pcb.state.Probing())
    requires forall x :: x in tx' && x.port == port ==> AsksLike(tx, x)
    ensures PortAsks(tx', pcb', port)
  {}

  /** Nothing changes but one interface, which is in order again. */
  lemma AllAskStill(s: Sys, s': Sys, port: Port)
    requires OthersAsk(s, port) && s'.Wf() && s'.services == s.services && PortAsks(s'.q.tx, s'.Of(port), port)
    requires forall p: Port :: p != port ==> s'.Of(p) == s.Of(p)
    requires forall x :: x in s'.q.tx && x.port != port ==> AsksLike(s.q.tx, x)
    ensures AllAsk(s')
  {
    hide NoRepeats, AsksLike;
    forall p: Port
      ensures PortAsks(s'.q.tx, s'.Of(p), p)
    {
      if p != port {
        PortAsksStill(s.q.tx, s.Of(p), s'.q.tx, s'.Of(p), p);
      }
    }
  }

  lemma Itself(tx: seq<Packet>)
    ensures forall x :: x in tx ==> AsksLike(tx, x)
  {}

  /** An interface with no packets, or one that does not probe, is in order. */
  lemma Cleared(s: Sys, s': Sys, port: Port)
    requires OthersAsk(s, port) && s'.Wf() && s'.services == s.services && NoRepeats(s'.Of(port).services)
    requires forall p: Port :: p != port ==> s'.Of(p) == s.Of(p)
    requires forall x :: x in s'.q.tx ==> x in s.q.tx && x.port != port
    ensures AllAsk(s')
  {
    Itself(s.q.tx);
    AllAskStill(s, s', port);
  }

  lemma Silent(s: Sys, s': Sys, port: Port)
    requires OthersAsk(s, port) && s'.Wf() && s'.services == s.services && NoRepeats(s'.Of(port).services)
    requires !s'.Of(port).ready || !s'.Of(port).state.Probing()
    requires forall p: Port :: p != port ==> s'.Of(p) == s.Of(p)
    requires forall x :: x in s'.q.tx && x.port != port ==> x in s.q.tx
    ensures AllAsk(s')
  {
    Itself(s.q.tx);
    AllAskStill(s, s', port);
  }

  lemma AskFacts(s: Sys, port: Port)
    requires AllAsk(s)
    ensures OthersAsk(s, port) && NoRepeats(s.Of(port).services) && NoRepeats(s.services)
  {
    assert PortAsks(s.q.tx, s.Of(port), port);
  }

  // ---------- Probing ----------

  lemma StartProbeAsks(s: Sys, port: Port, services: seq<Svc>, ip: bool, random: nat)
    requires AllAsk(s) && NoRepeats(services) && forall x :: x in s.q.tx ==> x.port != port
    requires s.Of(port).state.IsProbing() ==> forall x :: x in services ==> x !in s.Of(port).services
    ensures AllAsk(StartProbe(s, port, services, ip, random))
  {
    hide ProbeBody, Insert, NoRepeats, Asked, AsksLike;
    AskFacts(s, port);
    MergedServices(s, port, services, ip, random);
    var pcb := s.Of(port);
    var s' := StartProbe(s, port, services, ip, random);
    var delay := (if pcb.failed > 5 then 1000 else 120) + random % 128;
    var body := ProbeBody(s'.Of(port).services, pcb.probeIp || ip);
    ProbeAsksAll(s'.Of(port).services, pcb.probeIp || ip);
    var p := Packet(s.q.nextId, s.q.now + delay, false, port, body);
    assert s'.q.tx == Insert(s.q.tx, p);
    InsertMembers(s.q.tx, p);
    Itself(s.q.tx);
    AllAskStill(s, s', port);
  }

  lemma InitProbeAsks(s: Sys, port: Port, services: seq<Svc>, ip: bool, random: nat)
    requires OthersAsk(s, port) && NoRepeats(services)
    ensures AllAsk(InitProbe(s, port, services, ip, random))
  {
    hide StartProbe, Without, NoRepeats, AllAsk, NewOnes;
    var cleared := s.(q := s.q.(tx := Without(s.q.tx, port)));
    WithoutThins(s.q.tx, port);
    Cleared(s, cleared, port);
    if !s.named {
      Cleared(s, InitProbe(s, port, services, ip, random), port);
    } else if s.Of(port).state.IsProbing() {
      NewOnesAre(services, s.Of(port).services);
      StartProbeAsks(cleared, port, NewOnes(services, s.Of(port).services), ip, random);
    } else {
      StartProbeAsks(cleared, port, services, ip, random);
    }
  }

  lemma EnableAsks(s: Sys, port: Port, up: bool, random: nat)
    requires OthersAsk(s, port) && (!s.Of(port).ready && !up ==> AllAsk(s))
    ensures AllAsk(Enable(s, port, up, random))
  {
    hide InitProbe, NoRepeats;
    var pcb := s.Of(port);
    Itself(s.q.tx);
    if !pcb.ready && !up {
      AllAskStill(s, Enable(s, port, up, random), port);
    } else {
      var on := s.Set(port, pcb.(ready := true));
      assert forall p: Port :: p != port ==> on.Of(p) == s.Of(p);
      InitProbeAsks(on, port, s.services, true, random);
    }
  }

  lemma DisableAsks(s: Sys, port: Port, up: bool, random: nat)
    requires AllAsk(s)
    ensures AllAsk(Disable(s, port, up, random))
  {
    hide Enable, Without, AllAsk, NoRepeats;
    AskFacts(s, port);
    NoneRepeat();
    if s.Of(port).ready {
      var down := s.(q := s.q.(tx := Without(s.q.tx, port))).Set(port, DOWN);
      WithoutThins(s.q.tx, port);
      Cleared(s, down, port);
      if Partner(s, port).Some? && down.Of(Partner(s, port).value).state.Dup? {
        var other := Partner(s, port).value;
        var off := down.Set(other, down.Of(other).(state := Off));
        AskFacts(down, other);
        Silent(down, off, other);
        AskFacts(off, other);
        EnableAsks(off, other, up, random);
        TurnedOff(Enable(off, other, up, random), port);
      } else {
        TurnedOff(down, port);
      }
    } else {
      TurnedOff(s, port);
    }
  }

  lemma TurnedOff(s: Sys, port: Port)
    requires AllAsk(s)
    ensures AllAsk(s.Set(port, s.Of(port).(state := Off)))
  {
    hide AllAsk, NoRepeats;
    AskFacts(s, port);
    Silent(s, s.Set(port, s.Of(port).(state := Off)), port);
  }

  lemma AskWf(s: Sys)
    requires AllAsk(s)
    ensures s.Wf()
  {}

  // ---------- Announcing and duplicates ----------

  lemma AnnounceAsks(s: Sys, port: Port, services: seq<Svc>, ip: bool, random: nat)
    requires AllAsk(s) && NoRepeats(services)
    ensures AllAsk(Announce(s, port, services, ip, random))
  {
    hide InitProbe, AnnounceBody, Extend, AllAsk, NoRepeats, Insert;
    AskWf(s);
    AskFacts(s, port);
    var pcb := s.Of(port);
    var s' := Announce(s, port, services, ip, random);
    if !pcb.ready {
    } else if pcb.state.IsProbing() {
      InitProbeAsks(s, port, services, ip, random);
    } else if pcb.state.Announcing() {
      var i := FirstOf(s.q.tx, port);
      if i < |s.q.tx| {
        Silent(s, s', port);
      }
    } else if pcb.state.Running? && s.named {
      InsertMembers(s.q.tx, Packet(s.q.nextId, s.q.now, false, port, AnnounceBody(services, ip)));
      Silent(s, s', port);
    }
  }

  lemma MarkDuplicateAsks(s: Sys, port: Port, random: nat)
    requires AllAsk(s)
    ensures AllAsk(MarkDuplicate(s, port, random))
  {
    hide Announce, Without, AllAsk, NoRepeats;
    AskWf(s);
    AskFacts(s, port);
    NoneRepeat();
    if Partner(s, port).Some? && s.Of(Partner(s, port).value).ready {
      var s1 := if s.Of(port).ready then s.(q := s.q.(tx := Without(s.q.tx, port))).Set(port, DOWN) else s;
      var s2 := s1.Set(port, s1.Of(port).(state := Dup));
      WithoutThins(s.q.tx, port);
      Silent(s, s2, port);
      AnnounceAsks(s2, Partner(s, port).value, [], true, random);
    }
  }

  // ---------- Sending ----------

  lemma ScheduleNextAsks(s: Sys, p: Packet)
    requires AllAsk(s)
    requires s.Of(p.port).state.Probing() && s.Of(p.port).ready ==> Asked(p.body.questions) == s.Of(p.port).services
    ensures AllAsk(ScheduleNext(s, p))
  {
    hide AllAsk, NoRepeats, Asked, ScheduleNext;
    AskWf(s);
    AskFacts(s, p.port);
    NoneRepeat();
    var s' := ScheduleNext(s, p);
    ScheduledElsewhere(s, p);
    ScheduledPcb(s, p);
    ScheduledPackets(s, p);
    if s.Of(p.port).state.Probe1? || s.Of(p.port).state.Probe2? {
      AskAt(s, p.port);
      Itself(s.q.tx);
      AllAskStill(s, s', p.port);
    } else {
      Silent(s, s', p.port);
    }
  }

  lemma ScheduledPackets(s: Sys, p: Packet)
    requires s.Wf()
    ensures var state := s.Of(p.port).state;
            forall x :: x in ScheduleNext(s, p).q.tx ==>
              x in s.q.tx || (x.port == p.port && (state.Probe1? || state.Probe2? ==> x.body == p.body))
  {
    hide AnnounceFromProbe, SendAfter, SendNew;
    SentMembers(s.q, p, AnnounceFromProbe(p.body));
  }

  lemma SentMembers(q: Queue, p: Packet, body: Body)
    ensures forall x :: x in SendAfter(q, p.id, p.port, p.body, 250).tx ==>
              x in q.tx || (x.port == p.port && x.body == p.body)
    ensures forall x :: x in SendAfter(q, p.id, p.port, p.body, 1000).tx ==> x in q.tx || x.port == p.port
    ensures forall x :: x in SendNew(q, p.port, body, 250).tx ==> x in q.tx || x.port == p.port
  {
    hide Insert;
    InsertMembers(q.tx, Packet(p.id, q.now + 250, false, p.port, p.body));
    InsertMembers(q.tx, Packet(p.id, q.now + 1000, false, p.port, p.body));
    InsertMembers(q.tx, Packet(q.nextId, q.now + 250, false, p.port, body));
  }

  lemma AskAt(s: Sys, port: Port)
    requires AllAsk(s)
    ensures PortAsks(s.q.tx, s.Of(port), port)
  {}

  lemma FewerPackets(s: Sys, q: Queue)
    requires AllAsk(s) && forall x :: x in q.tx ==> AsksLike(s.q.tx, x)
    ensures AllAsk(s.(q := q))
  {
    hide NoRepeats, AsksLike;
    var s' := s.(q := q);
    forall p: Port
      ensures PortAsks(s'.q.tx, s'.Of(p), p)
    {
      PortAsksStill(s.q.tx, s.Of(p), q.tx, s.Of(p), p);
    }
  }

  lemma RunActionAsks(s: Sys)
    requires AllAsk(s)
    ensures AllAsk(RunAction(s))
  {
    hide ScheduleNext, AllAsk, NoRepeats;
    AskWf(s);
    if s.q.fifo != [] {
      var q := s.q.(fifo := s.q.fifo[1..]);
      Itself(s.q.tx);
      FewerPackets(s, q);
      if s.q.fifo[0].Tx? && Claimed(q, s.q.fifo[0].id).Some? {
        var p := Claimed(q, s.q.fifo[0].id).value;
        var s1 := s.(q := AfterClaim(q, p.id));
        FewerPackets(s, s1.q);
        AskAt(s, p.port);
        assert s.q.tx[0] in s.q.tx;
        ScheduleNextAsks(s1, p);
        Logged(ScheduleNext(s1, p), s.log + [Sent(p.port, s.Of(p.port).state, s.q.now, p.id)]);
      }
    }
  }

  lemma Logged(s: Sys, log: seq<Sent>)
    requires AllAsk(s)
    ensures AllAsk(s.(log := log))
  {
    hide NoRepeats;
    assert forall p: Port :: s.(log := log).Of(p) == s.Of(p);
  }

  // ---------- All interfaces ----------

  lemma ProbeOneAsks(s: Sys, port: Port, services: seq<Svc>, ip: bool, clear: bool, random: nat)
    requires AllAsk(s) && NoRepeats(services)
    ensures AllAsk(ProbeOne(s, port, services, ip, clear, random))
  {
    hide InitProbe, NoRepeats;
    NoneRepeat();
    AskFacts(s, port);
    if s.Of(port).ready {
      var s1 := if clear then s.Set(port, s.Of(port).(services := [], probeRunning := false)) else s;
      assert forall p: Port :: p != port ==> s1.Of(p) == s.Of(p);
      InitProbeAsks(s1, port, services, ip, random);
    }
  }

  lemma {:induction false} ProbeAllAsks(s: Sys, ports: seq<Port>, services: seq<Svc>, ip: bool, clear: bool,
                                        rnd: Port -> nat)
    requires AllAsk(s) && NoRepeats(services)
    ensures AllAsk(ProbeAll(s, ports, services, ip, clear, rnd))
    decreases |ports|
  {
    hide ProbeOne, AllAsk, NoRepeats;
    AskWf(s);
    if ports != [] {
      ProbeOneAsks(s, ports[0], services, ip, clear, rnd(ports[0]));
      ProbeAllAsks(ProbeOne(s, ports[0], services, ip, clear, rnd(ports[0])), ports[1..], services, ip, clear, rnd);
    }
  }

  lemma {:induction false} AnnounceAllAsks(s: Sys, ports: seq<Port>, services: seq<Svc>, ip: bool, rnd: Port -> nat)
    requires AllAsk(s) && NoRepeats(services)
    ensures AllAsk(AnnounceAll(s, ports, services, ip, rnd))
    decreases |ports|
  {
    hide Announce, AllAsk, NoRepeats;
    AskWf(s);
    if ports != [] {
      AnnounceAsks(s, ports[0], services, ip, rnd(ports[0]));
      AnnounceAllAsks(Announce(s, ports[0], services, ip, rnd(ports[0])), ports[1..], services, ip, rnd);
    }
  }

  lemma SetNameAsks(s: Sys, rnd: Port -> nat)
    requires AllAsk(s)
    ensures AllAsk(RestartAll(s.(named := true), rnd))
  {
    hide ProbeAll, NoRepeats;
    var s1 := s.(named := true, q := s.q.(tx := []));
    forall p: Port
      ensures PortAsks(s1.q.tx, s1.Of(p), p)
    {
      AskAt(s, p);
    }
    ProbeAllAsks(s1, ALL_PORTS, s1.services, true, true, rnd);
  }

  lemma AddServiceAsks(s: Sys, svc: Svc, rnd: Port -> nat)
    requires AllAsk(s) && svc !in s.services
    ensures AllAsk(ProbeAll(s.(services := [svc] + s.services), ALL_PORTS, [svc], false, false, rnd))
  {
    hide ProbeAll;
    NoRepeatsAppend([svc], s.services);
    var s1 := s.(services := [svc] + s.services);
    assert forall p: Port :: s1.Of(p) == s.Of(p);
    ProbeAllAsks(s1, ALL_PORTS, [svc], false, false, rnd);
  }
}
