/** The per-interface probe, announce and duplicate machine (mdns_pcb.c), over the transmit queue:
 * every operation that schedules, sends or cancels packets, as a function of the whole state. */
module Responder {
  import opened Bytes
  import opened TxQueue

  datatype PState = Off | Dup | Init | Probe1 | Probe2 | Probe3 | Ann1 | Ann2 | Ann3 | Running
  {
    /** PCB_STATE_IS_PROBING: every state after OFF and before ANNOUNCE_1. */
    predicate IsProbing() {
      Dup? || Init? || Probing()
    }

    predicate Probing() {
      Probe1? || Probe2? || Probe3?
    }

    predicate Announcing() {
      Ann1? || Ann2? || Ann3?
    }

    predicate AfterProbing() {
      Announcing() || Running?
    }
  }

  /** mdns_pcb_t, and whether the network side of this interface and protocol is up. */
  datatype Pcb = Pcb(state: PState, services: seq<Svc>, probeIp: bool, probeRunning: bool, failed: nat, ready: bool)

  /** One packet handed to the network by the service task. */
  datatype Sent = Sent(port: Port, state: PState, at: nat, id: nat)

  /** `named`: a host name is set.  `partner`: the other interface on the same subnet.  `overran`: a
   * merge of probe lists copied past the list allocated for it. */
  datatype Sys = Sys(q: Queue, pcbs: map<Port, Pcb>, partner: map<Ifx, Ifx>, services: seq<Svc>,
                     named: bool, overran: bool, log: seq<Sent>)
  {
    ghost predicate Wf() {
      && (forall p: Port :: p in pcbs)
      && (forall i :: i in partner ==> partner[i] != i && partner[i] in partner && partner[partner[i]] == i)
    }

    function Of(port: Port): Pcb
      requires Wf()
    {
      pcbs[port]
    }

    function Set(port: Port, pcb: Pcb): (s: Sys)
      requires Wf()
      ensures s.Wf()
    {
      this.(pcbs := pcbs[port := pcb])
    }
  }

  const ALL_PORTS: seq<Port> := [Port(0, false), Port(0, true), Port(1, false), Port(1, true), Port(2, false),
    Port(2, true)]

  // ---------- Packets ----------

  /** mdns_priv_create_answer: appended unless it is already there. */
  function AddAnswer(answers: seq<Answer>, a: Answer): seq<Answer> {
    if a in answers then answers else answers + [a]
  }

  function AddHost(answers: seq<Answer>, host: nat): seq<Answer> {
    AddAnswer(AddAnswer(answers, Answer(A, None, Some(host))), Answer(Aaaa, None, Some(host)))
  }

  /** mdns_priv_append_host_list_in_services. */
  function AddHosts(answers: seq<Answer>, services: seq<Svc>): seq<Answer>
    decreases |services|
  {
    if services == [] then answers else AddHosts(AddHost(answers, services[0].host), services[1..])
  }

  function AddHostsOrSelf(answers: seq<Answer>, services: seq<Svc>): seq<Answer> {
    if services == [] then AddHost(answers, 0) else AddHosts(answers, services)
  }

  function AddQuestion(questions: seq<Question>, x: Question): seq<Question> {
    if x in questions then questions else questions + [x]
  }

  function ServiceQuestions(services: seq<Svc>): seq<Question> {
    if services == [] then []
    else AddQuestion(ServiceQuestions(services[..|services| - 1]), ServiceQ(services[|services| - 1]))
  }

  function HostQuestions(questions: seq<Question>, services: seq<Svc>): seq<Question>
    decreases |services|
  {
    if services == [] then questions
    else HostQuestions(AddQuestion(questions, HostQ(Some(services[0]))), services[1..])
  }

  function SrvAnswers(services: seq<Svc>): seq<Answer> {
    if services == [] then []
    else AddAnswer(SrvAnswers(services[..|services| - 1]), Answer(Srv, Some(services[|services| - 1]), None))
  }

  /** mdns_priv_create_probe_packet. */
  function ProbeBody(services: seq<Svc>, ip: bool): Body {
    var questions := ServiceQuestions(services);
    var servers := SrvAnswers(services);
    Body(if ip then HostQuestions(AddQuestion(questions, HostQ(None)), services) else questions,
         [], if ip then AddHostsOrSelf(servers, services) else servers, [], false)
  }

  function AddService(answers: seq<Answer>, s: Svc): seq<Answer> {
    AddAnswer(AddAnswer(AddAnswer(AddAnswer(answers, Answer(SdPtr, Some(s), None)), Answer(Ptr, Some(s), None)),
                        Answer(Srv, Some(s), None)), Answer(Txt, Some(s), None))
  }

  function AddServices(answers: seq<Answer>, services: seq<Svc>): seq<Answer>
    decreases |services|
  {
    if services == [] then answers else AddServices(AddService(answers, services[0]), services[1..])
  }

  /** mdns_priv_create_announce_packet. */
  function AnnounceBody(services: seq<Svc>, ip: bool): Body {
    Body([], AddServices([], services), if ip then AddHostsOrSelf([], services) else [], [], false)
  }

  /** What one server record of a probe adds: the service's records with its host's addresses, or an address that
   * was probed. */
  function Announced(answers: seq<Answer>, s: Answer): seq<Answer> {
    if s.kind == Srv && s.service.Some? then AddHost(AddService(answers, s.service.value), s.service.value.host)
    else if s.kind == A || s.kind == Aaaa then AddAnswer(answers, s.(service := None))
    else answers
  }

  /** mdns_priv_create_announce_from_probe. */
  function AnnounceAnswers(answers: seq<Answer>, servers: seq<Answer>): seq<Answer>
    decreases |servers|
  {
    if servers == [] then answers else AnnounceAnswers(Announced(answers, servers[0]), servers[1..])
  }

  function AnnounceFromProbe(probe: Body): Body {
    Body([], AnnounceAnswers([], probe.servers), [], [], false)
  }

  // ---------- Probing ----------

  /** The services that are not being probed yet. */
  function NewOnes(services: seq<Svc>, probed: seq<Svc>): seq<Svc> {
    if services == [] then []
    else (if services[0] in probed then [] else [services[0]]) + NewOnes(services[1..], probed)
  }

  /** init_probe_new_service.  The list allocated has room for the old services only while the macro
   * PCB_STATE_IS_PROBING holds; what does not fit is not part of the new list. */
  function StartProbe(s: Sys, port: Port, services: seq<Svc>, ip: bool, random: nat): (s': Sys)
    requires s.Wf()
    ensures s'.Wf()
  {
    var pcb := s.Of(port);
    var room := |services| + (if pcb.state.IsProbing() then |pcb.services| else 0);
    var copied := if room > 0 then services + pcb.services else [];
    var merged := if |copied| <= room then copied else copied[..room];
    var withIp := pcb.probeIp || ip;
    var delay := (if pcb.failed > 5 then 1000 else 120) + random % 128;
    s.Set(port, Pcb(Probe1, merged, withIp, true, pcb.failed, pcb.ready))
     .(q := SendNew(s.q, port, ProbeBody(merged, withIp), delay),
       overran := s.overran || |copied| > room)
  }

  /** mdns_priv_init_pcb_probe. */
  function InitProbe(s: Sys, port: Port, services: seq<Svc>, ip: bool, random: nat): (s': Sys)
    requires s.Wf()
    ensures s'.Wf()
  {
    var cleared := s.(q := s.q.(tx := Without(s.q.tx, port)));
    var pcb := s.Of(port);
    if !s.named then cleared.Set(port, pcb.(state := Running))
    else if pcb.state.IsProbing() then StartProbe(cleared, port, NewOnes(services, pcb.services), ip, random)
    else StartProbe(cleared, port, services, ip, random)
  }

  /** restart_pcb. */
  function Restart(s: Sys, port: Port, random: nat): (s': Sys)
    requires s.Wf()
    ensures s'.Wf()
  {
    InitProbe(s, port, s.services, true, random)
  }

  /** mdns_priv_pcb_enable; `up` says whether the network side could be started. */
  function Enable(s: Sys, port: Port, up: bool, random: nat): (s': Sys)
    requires s.Wf()
    ensures s'.Wf()
  {
    var pcb := s.Of(port);
    if !pcb.ready && !up then s.Set(port, pcb.(failed := 0))
    else Restart(s.Set(port, pcb.(ready := true)), port, random)
  }

  /** deinit_pcb. */
  const DOWN := Pcb(Off, [], false, false, 0, false)

  function Partner(s: Sys, port: Port): Option<Port> {
    if port.ifx in s.partner then Some(Port(s.partner[port.ifx], port.v6)) else None
  }

  /** mdns_priv_pcb_disable. */
  function Disable(s: Sys, port: Port, up: bool, random: nat): (s': Sys)
    requires s.Wf()
    ensures s'.Wf()
  {
    var s1 :=
      if s.Of(port).ready then
        var down := s.(q := s.q.(tx := Without(s.q.tx, port))).Set(port, DOWN);
        match Partner(s, port)
        case None => down
        case Some(other) =>
          if down.Of(other).state.Dup? then Enable(down.Set(other, down.Of(other).(state := Off)), other, up, random)
          else down
      else s;
    s1.Set(port, s1.Of(port).(state := Off))
  }

  // ---------- Announcing ----------

  /** mdns_priv_dealloc_answer with no service: the first such record. */
  function DropFirst(answers: seq<Answer>, kind: RecordType, service: Option<Svc>): seq<Answer> {
    if answers == [] then []
    else if answers[0].kind == kind && answers[0].service == service then answers[1..]
    else [answers[0]] + DropFirst(answers[1..], kind, service)
  }

  /** More records for the announcement under way. */
  function Extend(body: Body, services: seq<Svc>, ip: bool): Body {
    var more := AddServices(body.answers, services);
    if ip then
      body.(answers := AddHostsOrSelf(more, services),
            additional := DropFirst(DropFirst(body.additional, A, None), Aaaa, None))
    else body.(answers := more)
  }

  /** mdns_priv_get_next_packet: its place in the list, or the length of the list. */
  function FirstOf(tx: seq<Packet>, port: Port): (i: nat)
    ensures i <= |tx| && (i < |tx| ==> tx[i].port == port)
    ensures forall j :: 0 <= j < i ==> tx[j].port != port
  {
    if tx == [] || tx[0].port == port then 0 else 1 + FirstOf(tx[1..], port)
  }

  /** mdns_priv_pcb_announce. */
  function Announce(s: Sys, port: Port, services: seq<Svc>, ip: bool, random: nat): (s': Sys)
    requires s.Wf()
    ensures s'.Wf()
  {
    var pcb := s.Of(port);
    if !pcb.ready then s
    else if pcb.state.IsProbing() then InitProbe(s, port, services, ip, random)
    else if pcb.state.Announcing() then
      var i := FirstOf(s.q.tx, port);
      if i == |s.q.tx| then s
      else
        var p := s.q.tx[i];
        s.Set(port, pcb.(state := Ann1)).(q := s.q.(tx := s.q.tx[i := p.(body := Extend(p.body, services, ip))]))
    else if pcb.state.Running? && s.named then
      s.Set(port, pcb.(state := Ann1)).(q := SendNew(s.q, port, AnnounceBody(services, ip), 0))
    else s
  }

  /** mdns_priv_pcb_set_duplicate, for one protocol. */
  function MarkDuplicate(s: Sys, port: Port, random: nat): (s': Sys)
    requires s.Wf()
    ensures s'.Wf()
  {
    match Partner(s, port)
    case None => s
    case Some(other) =>
      if !s.Of(other).ready then s
      else
        var s1 := if s.Of(port).ready then s.(q := s.q.(tx := Without(s.q.tx, port))).Set(port, DOWN) else s;
        Announce(s1.Set(port, s1.Of(port).(state := Dup)), other, [], true, random)
  }

  // ---------- Sending ----------

  /** mdns_priv_pcb_schedule_tx_packet: what follows the packet just sent. */
  function ScheduleNext(s: Sys, p: Packet): (s': Sys)
    requires s.Wf()
    ensures s'.Wf()
  {
    var pcb := s.Of(p.port);
    match pcb.state
    case Probe1 => s.Set(p.port, pcb.(state := Probe2)).(q := SendAfter(s.q, p.id, p.port, p.body, 250))
    case Probe2 => s.Set(p.port, pcb.(state := Probe3)).(q := SendAfter(s.q, p.id, p.port, p.body, 250))
    case Probe3 =>
      s.Set(p.port, Pcb(Ann1, [], false, false, 0, pcb.ready))
       .(q := SendNew(s.q, p.port, AnnounceFromProbe(p.body), 250))
    case Ann1 => s.Set(p.port, pcb.(state := Ann2)).(q := SendAfter(s.q, p.id, p.port, p.body, 1000))
    case Ann2 => s.Set(p.port, pcb.(state := Ann3)).(q := SendAfter(s.q, p.id, p.port, p.body, 1000))
    case Ann3 => s.Set(p.port, pcb.(state := Running))
    case _ => s
  }

  /** handle_packet. */
  function Handle(s: Sys, p: Packet): (s': Sys)
    requires s.Wf()
    ensures s'.Wf()
  {
    if s.Of(p.port).state.Off? then s
    else ScheduleNext(s, p).(log := s.log + [Sent(p.port, s.Of(p.port).state, s.q.now, p.id)])
  }

  /** The service task takes the next action; other actions have their effects as steps of their own. */
  function RunAction(s: Sys): (s': Sys)
    requires s.Wf()
    ensures s'.Wf()
  {
    if s.q.fifo == [] then s
    else
      var q := s.q.(fifo := s.q.fifo[1..]);
      if s.q.fifo[0].Other? then s.(q := q)
      else
        match Claimed(q, s.q.fifo[0].id)
        case None => s.(q := q)
        case Some(p) => Handle(s.(q := AfterClaim(q, p.id)), p)
  }

  // ---------- Removing a service ----------

  function DropService(answers: seq<Answer>, svc: Svc): seq<Answer> {
    if answers == [] then []
    else if answers[0].service == Some(svc) then DropService(answers[1..], svc)
    else [answers[0]] + DropService(answers[1..], svc)
  }

  function DropOne(services: seq<Svc>, svc: Svc): seq<Svc> {
    if services == [] then []
    else if services[0] == svc then services[1..]
    else [services[0]] + DropOne(services[1..], svc)
  }

  /** mdns_priv_pcb_check_probing_services: the new state, and whether the question is to go too. */
  function CheckProbing(pcb: Pcb, svc: Svc, removedAnswers: bool): (Pcb, bool) {
    if pcb.state.IsProbing() then
      if svc in pcb.services then
        if |pcb.services| > 1 then (pcb.(services := DropOne(pcb.services, svc)), true)
        else if pcb.probeIp then (pcb.(services := []), true)
        else (pcb.(services := [], probeRunning := false, state := Running), true)
      else (pcb, false)
    else if pcb.state.Announcing() && removedAnswers then (pcb.(state := Running), false)
    else (pcb, false)
  }

  /** The first question of the same type and protocol. */
  function DropQuestion(questions: seq<Question>, svc: Svc): seq<Question> {
    if questions == [] then []
    else if questions[0].ServiceQ? && questions[0].service.key == svc.key then questions[1..]
    else [questions[0]] + DropQuestion(questions[1..], svc)
  }

  predicate Empty(b: Body) {
    b.questions == [] && b.answers == [] && b.servers == [] && b.additional == []
  }

  /** One packet of mdns_priv_remove_scheduled_service_packets: its body, and the interface's state. */
  function Strip(pcb: Pcb, body: Body, svc: Svc): (r: (Pcb, Body)) {
    var b := body.(answers := DropService(body.answers, svc), additional := DropService(body.additional, svc),
                   servers := DropService(body.servers, svc));
    if !pcb.ready then (pcb, b)
    else
      var (pcb', asked) := CheckProbing(pcb, svc, body.answers != [] && b.answers == []);
      (pcb', if asked then b.(questions := DropQuestion(b.questions, svc)) else b)
  }

  /** mdns_priv_remove_scheduled_service_packets, from the head of `tx` on. */
  function StripAll(tx: seq<Packet>, pcbs: map<Port, Pcb>, svc: Svc): (r: (seq<Packet>, map<Port, Pcb>))
    requires forall p: Port :: p in pcbs
    ensures forall p: Port :: p in r.1
  {
    if tx == [] then ([], pcbs)
    else
      var (pcb, body) := Strip(pcbs[tx[0].port], tx[0].body, svc);
      var (rest, pcbs') := StripAll(tx[1..], pcbs[tx[0].port := pcb], svc);
      (if Empty(body) then rest else [tx[0].(body := body)] + rest, pcbs')
  }

  function RemoveService(s: Sys, svc: Svc): (s': Sys)
    requires s.Wf()
    ensures s'.Wf()
  {
    var (tx, pcbs) := StripAll(s.q.tx, s.pcbs, svc);
    s.(q := s.q.(tx := tx), pcbs := pcbs, services := DropOne(s.services, svc))
  }

  /** mdns_priv_remove_scheduled_answer: known answers leave the distributed responses. */
  function RemoveKnown(tx: seq<Packet>, port: Port, kind: RecordType, service: Option<Svc>): seq<Packet> {
    if tx == [] then []
    else
      var p := tx[0];
      var p' := if p.port == port && p.body.distributed
                then p.(body := p.body.(answers := DropFirst(p.body.answers, kind, service))) else p;
      [p'] + RemoveKnown(tx[1..], port, kind, service)
  }

  // ---------- All interfaces ----------

  /** One interface of mdns_priv_probe_all_pcbs. */
  function ProbeOne(s: Sys, port: Port, services: seq<Svc>, ip: bool, clear: bool, random: nat): (s': Sys)
    requires s.Wf()
    ensures s'.Wf()
  {
    var pcb := s.Of(port);
    if !pcb.ready then s
    else InitProbe(if clear then s.Set(port, pcb.(services := [], probeRunning := false))
           else s, port, services, ip, random)
  }

  function ProbeAll(s: Sys, ports: seq<Port>, services: seq<Svc>, ip: bool, clear: bool, random: Port -> nat): (s': Sys)
    requires s.Wf()
    ensures s'.Wf()
    decreases |ports|
  {
    if ports == [] then s
    else ProbeAll(ProbeOne(s, ports[0], services, ip, clear, random(ports[0])), ports[1..], services, ip, clear, random)
  }

  /** mdns_priv_restart_all_pcbs. */
  function RestartAll(s: Sys, random: Port -> nat): (s': Sys)
    requires s.Wf()
    ensures s'.Wf()
  {
    ProbeAll(s.(q := s.q.(tx := [])), ALL_PORTS, s.services, true, true, random)
  }

  function AnnounceAll(s: Sys, ports: seq<Port>, services: seq<Svc>, ip: bool, random: Port -> nat): (s': Sys)
    requires s.Wf()
    ensures s'.Wf()
    decreases |ports|
  {
    if ports == [] then s
    else AnnounceAll(Announce(s, ports[0], services, ip, random(ports[0])), ports[1..], services, ip, random)
  }
}
